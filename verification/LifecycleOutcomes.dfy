/** How startup and shutdown come out, told from the events of a run alone (packages/bootstrap/src/service.ts). */
module LifecycleOutcomes {
  import opened Options
  import opened StopAll
  import opened Lifecycle
  import opened LifecycleTheorems

  // ----- Registering -----

  predicate OnlyRegistering(trace: seq<Event>) {
    forall i :: 0 <= i < |trace| ==> trace[i].AddResource?
  }

  lemma ListeningStep(config: Config, s: State, e: Event)
    requires Inv(s) && Enabled(s, e)
    requires s.listening <==> s.mode in {Starting, Running, Stopping}
    ensures var t := Next(config, s, e); t.listening <==> t.mode in {Starting, Running, Stopping}
  {
  }

  /** Signals are heard exactly from the beginning of the startup to the end of the service; calls can come anytime. */
  lemma {:induction false} SignalsAreHeard(config: Config, trace: seq<Event>, signal: string, elapsed: nat)
    requires Feasible(config, trace)
    ensures Enabled(Run(config, trace), Signal(signal, elapsed)) <==>
              Run(config, trace).mode in {Starting, Running, Stopping}
    ensures Enabled(Run(config, trace), CallStart) && Enabled(Run(config, trace), CallShutdown(signal, elapsed))
    ensures forall resource :: Enabled(Run(config, trace), AddResource(resource))
  {
    if trace != [] {
      var before := trace[..|trace| - 1];
      SignalsAreHeard(config, before, signal, elapsed);
      RunKeeps(config, before);
      ListeningStep(config, Run(config, before), trace[|trace| - 1]);
    }
  }

  lemma IdleStep(config: Config, s: State, e: Event)
    requires Inv(s) && Enabled(s, e) && (s.listening <==> s.mode in {Starting, Running, Stopping})
    ensures Next(config, s, e).mode.Idle? <==> s.mode.Idle? && e.AddResource?
  {
  }

  /** A service is idle until something besides registering is done with it. */
  lemma {:induction false} IdleIff(config: Config, trace: seq<Event>)
    requires Feasible(config, trace)
    ensures Run(config, trace).mode.Idle? <==> OnlyRegistering(trace)
  {
    if trace != [] {
      var before, last := trace[..|trace| - 1], trace[|trace| - 1];
      IdleIff(config, before);
      RunKeeps(config, before);
      SignalsAreHeard(config, before, "", 0);
      IdleStep(config, Run(config, before), last);
      assert forall i :: 0 <= i < |before| ==> before[i] == trace[i];
    }
  }

  /** The registration at `i` was made in time, with a name nobody had registered. */
  predicate Registers(trace: seq<Event>, i: nat, resource: Resource) {
    && i < |trace| && trace[i] == AddResource(resource)
    && OnlyRegistering(trace[..i])
    && forall j :: 0 <= j < i && trace[j].AddResource? ==> trace[j].resource.name != resource.name
  }

  lemma RegistersEarlier(trace: seq<Event>, i: nat, resource: Resource)
    requires i < |trace| - 1
    ensures Registers(trace[..|trace| - 1], i, resource) <==> Registers(trace, i, resource)
  {
    assert trace[..|trace| - 1][..i] == trace[..i];
  }

  ghost predicate Taken(s: State, name: string) {
    exists p :: 0 <= p < |s.resources| && s.resources[p].name == name
  }

  lemma ResourcesStep(config: Config, s: State, e: Event)
    requires Enabled(s, e)
    ensures var t := Next(config, s, e);
            t.resources == if e.AddResource? && s.mode.Idle? && !Taken(s, e.resource.name)
                           then s.resources + [e.resource] else s.resources
  {
  }

  /** The resource at `p` is the `p`-th to have been registered in time under a new name. */
  lemma {:induction false} ResourcesAreRegistered(config: Config, trace: seq<Event>, p: nat) returns (i: nat)
    requires Feasible(config, trace) && p < |Run(config, trace).resources|
    ensures Registers(trace, i, Run(config, trace).resources[p]) && |Run(config, trace[..i]).resources| == p
  {
    var before, last := trace[..|trace| - 1], trace[|trace| - 1];
    ResourcesStep(config, Run(config, before), last);
    if p < |Run(config, before).resources| {
      i := ResourcesAreRegistered(config, before, p);
      RegistersEarlier(trace, i, Run(config, trace).resources[p]);
      assert before[..i] == trace[..i];
    } else {
      i := |before|;
      IdleIff(config, before);
      forall j | 0 <= j < i
        ensures trace[j].resource.name != last.resource.name
      {
        NamesAreTaken(config, before, j);
      }
    }
  }

  /** Every name registered in time is taken. */
  lemma {:induction false} NamesAreTaken(config: Config, trace: seq<Event>, j: nat)
    requires Feasible(config, trace) && OnlyRegistering(trace) && j < |trace|
    ensures Taken(Run(config, trace), trace[j].resource.name)
  {
    var before, last := trace[..|trace| - 1], trace[|trace| - 1];
    var s, t := Run(config, before), Run(config, trace);
    IdleIff(config, before);
    ResourcesStep(config, s, last);
    if j < |before| {
      NamesAreTaken(config, before, j);
      var p :| 0 <= p < |s.resources| && s.resources[p].name == before[j].resource.name;
      assert t.resources[p] == s.resources[p];
    } else if t.resources == s.resources + [last.resource] {
      assert t.resources[|s.resources|] == last.resource;
    }
  }

  /** What was registered in time under a new name is there, and stays. */
  lemma {:induction false} RegisteredIsThere(config: Config, trace: seq<Event>, i: nat, resource: Resource)
    requires Feasible(config, trace) && Registers(trace, i, resource)
    ensures resource in Run(config, trace).resources
  {
    var before, last := trace[..|trace| - 1], trace[|trace| - 1];
    ResourcesStep(config, Run(config, before), last);
    if i < |before| {
      RegistersEarlier(trace, i, resource);
      RegisteredIsThere(config, before, i, resource);
    } else {
      IdleIff(config, before);
      if Taken(Run(config, before), resource.name) {
        var p :| 0 <= p < |Run(config, before).resources| && Run(config, before).resources[p].name == resource.name;
        var j := ResourcesAreRegistered(config, before, p);
        assert false;
      }
    }
  }

  /** A service has exactly the resources that were registered before anything else was done, the first of each name. */
  lemma RegisteredIff(config: Config, trace: seq<Event>, resource: Resource)
    requires Feasible(config, trace)
    ensures resource in Run(config, trace).resources <==> exists i :: Registers(trace, i, resource)
  {
    if resource in Run(config, trace).resources {
      var p :| 0 <= p < |Run(config, trace).resources| && Run(config, trace).resources[p] == resource;
      var i := ResourcesAreRegistered(config, trace, p);
    }
    if i :| Registers(trace, i, resource) {
      RegisteredIsThere(config, trace, i, resource);
    }
  }

  // ----- Starting -----

  /** `start` was called before anything but registering was done. */
  ghost predicate Begun(trace: seq<Event>) {
    exists i :: 0 <= i < |trace| && trace[i].CallStart? && OnlyRegistering(trace[..i])
  }

  lemma BegunStep(trace: seq<Event>)
    requires trace != []
    ensures var before, last := trace[..|trace| - 1], trace[|trace| - 1];
            Begun(trace) <==> Begun(before) || (last.CallStart? && OnlyRegistering(before))
  {
    var before := trace[..|trace| - 1];
    assert forall i :: 0 <= i <= |before| ==> before[..i] == trace[..i];
    if Begun(before) {
      var i :| 0 <= i < |before| && before[i].CallStart? && OnlyRegistering(before[..i]);
      assert trace[i].CallStart? && OnlyRegistering(trace[..i]);
    }
  }

  /** Where the startup stands, when it has begun or not, and a resource has failed to start or not. */
  ghost predicate StartupIs(s: State, begun: bool, failed: bool) {
    match s.start
    case NotStarted => !begun && !failed
    case StartingAt(_) => begun && !failed
    case Started => begun && !failed
    case RollingBack(_, _) => begun && failed
    case StartFailed(_) => begun && failed
  }

  lemma StartupGoesOn(config: Config, s: State, e: Event, begun: bool, failed: bool)
    requires Inv(s) && Enabled(s, e) && StartupIs(s, begun, failed)
    ensures StartupIs(Next(config, s, e), begun || (e.CallStart? && s.mode.Idle?), failed || e == StartSettled(false))
  {
    if e.CallShutdown? || e.Signal? || e.StartAwaited? || e.DrainOver? || e.ExitCalled? {
      ShutdownLeavesStart(config, s, e);
    }
  }

  lemma {:induction false} StartupIsKept(config: Config, trace: seq<Event>)
    requires Feasible(config, trace)
    ensures StartupIs(Run(config, trace), Begun(trace), StartSettled(false) in trace)
  {
    if trace != [] {
      var before, last := trace[..|trace| - 1], trace[|trace| - 1];
      StartupIsKept(config, before);
      RunKeeps(config, before);
      IdleIff(config, before);
      BegunStep(trace);
      StartupGoesOn(config, Run(config, before), last, Begun(before), StartSettled(false) in before);
      assert trace == before + [last];
    }
  }

  /**
   The startup goes through the resources in order: it begins if and only if `start` was called in time, waits for the
   resource after those that started, ends once all have, and is rolled back once one has failed to.
   */
  lemma StartupIsTold(config: Config, trace: seq<Event>)
    requires Feasible(config, trace)
    ensures var start, n, all := Run(config, trace).start, CountStarted(trace), |Run(config, trace).resources|;
            var begun, failed := Begun(trace), StartSettled(false) in trace;
            && (start.NotStarted? <==> !begun)
            && (start.StartingAt? <==> begun && !failed && n < all) && (start.StartingAt? ==> start.at == n)
            && (start.Started? <==> begun && !failed && n == all)
            && (start.RollingBack? || start.StartFailed? <==> failed)
  {
    StartupIsKept(config, trace);
    StartupIsCounted(config, trace);
    RunKeeps(config, trace);
  }

  // ----- Shutting down -----

  function Lesser(a: int, b: int): int {
    if a <= b then a else b
  }

  /** What follows once no startup is in the way. */
  ghost predicate Proceeds(config: Config, s: State, t: State, reason: string) {
    if s.mode.Running? then
      && t.mode.Stopping?
      && (if Lesser(config.drainDelayMs, config.shutdownTimeoutMs) > 0 then
            t.shutdown == Draining(reason) && t.stops == s.stops
          else t.shutdown.StoppingAll? && t.shutdown.reason == reason)
    else
      && t.mode == (if s.mode.Idle? then Stopped else s.mode)
      && t.shutdown == ShutDown(Result(!s.mode.Failed?, reason, false, [], [])) && t.stops == s.stops
  }

  /**
   The first call or signal waits for a startup that is under way; with nothing running it is over at once, and well
   unless the startup failed; otherwise it drains, for what the budget allows, or stops the resources.
   */
  lemma ShutdownLeadsTo(config: Config, s: State, e: Event)
    requires Inv(s) && Enabled(s, e) && (e.CallShutdown? || e.Signal?)
    ensures var t := Next(config, s, e);
            if !s.shutdown.NotShut? then t == s
            else if s.mode.Starting? then t.shutdown == AwaitingStart(Gives(e).value) && t.mode == s.mode
            else Proceeds(config, s, t, Gives(e).value)
  {
  }

  /** So it does after the startup it waited for, and after draining it stops the resources. */
  lemma ShutdownLeadsOn(config: Config, s: State, e: Event)
    requires Inv(s) && Enabled(s, e)
    ensures var t := Next(config, s, e);
            && (e.StartAwaited? ==> Proceeds(config, s, t, s.shutdown.reason))
            && (e.DrainOver? ==> t.shutdown.StoppingAll? && t.shutdown.reason == s.shutdown.reason && t.mode == s.mode)
  {
  }

  // ----- How stopping comes out -----

  /** How the races ended, in order. */
  function Turns(trace: seq<Event>): seq<Turn> {
    if trace == [] then []
    else Turns(trace[..|trace| - 1])
         + if trace[|trace| - 1].StopSettled? then [trace[|trace| - 1].turn] else []
  }

  predicate OnTime(turns: seq<Turn>) {
    forall i :: 0 <= i < |turns| ==> !turns[i].DeadlineFirst? && !turns[i].late
  }

  function Thrown(order: seq<nat>, turns: seq<Turn>): seq<nat>
    requires |turns| <= |order|
  {
    if turns == [] then []
    else Thrown(order, turns[..|turns| - 1])
         + if turns[|turns| - 1].Threw? then [order[|turns| - 1]] else []
  }

  /** After these turns stopping is over: everything has settled, or the deadline was met. */
  predicate Over(order: seq<nat>, late: bool, turns: seq<Turn>, failed: seq<nat>, pending: seq<nat>) {
    var n := |turns|;
    if n == 0 then (late || order == []) && failed == [] && pending == order
    else
      && n <= |order| && !late && OnTime(turns[..n - 1])
      && if turns[n - 1].DeadlineFirst? then failed == Thrown(order, turns[..n - 1]) && pending == order[n - 1..]
         else failed == Thrown(order, turns) && pending == order[n..] && (turns[n - 1].late || n == |order|)
  }

  predicate Along(order: seq<nat>, late: bool, turns: seq<Turn>, p: Progress) {
    match p
    case InFlight(at, failed) =>
      at == |turns| < |order| && !late && OnTime(turns) && failed == Thrown(order, turns)
    case Finished(called, failed, pending) => called == |turns| && Over(order, late, turns, failed, pending)
  }

  lemma AlongBegins(order: seq<nat>, late: bool)
    ensures Along(order, late, [], GoOn(order, 0, [], late))
  {
  }

  lemma AlongGoesOn(order: seq<nat>, late: bool, turns: seq<Turn>, p: Progress, turn: Turn)
    requires Along(order, late, turns, p) && p.InFlight?
    ensures Along(order, late, turns + [turn], Advance(order, p, turn))
  {
    assert (turns + [turn])[..|turns|] == turns;
  }

  /** The time that had passed when the stops of a shutdown began, once they have. */
  ghost function BeganAfter(config: Config, trace: seq<Event>): Option<nat> {
    if trace == [] then None
    else
      var before := trace[..|trace| - 1];
      Began(Run(config, before), Run(config, trace), trace[|trace| - 1], BeganAfter(config, before))
  }

  function Began(s: State, t: State, e: Event, before: Option<nat>): Option<nat> {
    if before.Some? then before
    else if !s.shutdown.StoppingAll? && t.shutdown.StoppingAll? then PassedAt(e)
    else None
  }

  function PassedAt(e: Event): Option<nat> {
    match e
    case CallShutdown(_, elapsed) => Some(elapsed)
    case Signal(_, elapsed) => Some(elapsed)
    case StartAwaited(elapsed) => Some(elapsed)
    case DrainOver(elapsed) => Some(elapsed)
    case _ => None
  }

  /** A rollback has the whole budget, a shutdown what is left of it. */
  ghost predicate StopsTold(config: Config, s: State, turns: seq<Turn>, began: Option<nat>) {
    if s.start.RollingBack? then Along(s.start.order, config.shutdownTimeoutMs <= 0, turns, s.start.progress)
    else if s.start.StartFailed? then
      s.start.started <= |s.resources|
      && RolledBack(StopOrder(s.resources, s.start.started), config.shutdownTimeoutMs <= 0, turns, s.stops)
    else
      match s.shutdown
      case StoppingAll(_, p) => began.Some? && Along(Order(s), config.shutdownTimeoutMs <= began.value, turns, p)
      case ShutDown(result) =>
        if s.start.Started? then
          && began.Some? && |turns| <= |s.resources| && s.stops == Order(s)[..|turns|]
          && Over(Order(s), config.shutdownTimeoutMs <= began.value, turns, result.failed, result.pending)
        else turns == []
      case _ => turns == [] && began.None?
  }

  ghost predicate RolledBack(order: seq<nat>, late: bool, turns: seq<Turn>, stops: seq<nat>) {
    && |turns| <= |order| && stops == order[..|turns|]
    && exists failed, pending :: Over(order, late, turns, failed, pending)
  }

  lemma RollbackTold(config: Config, s: State, e: Event, turns: seq<Turn>, began: Option<nat>)
    requires Inv(s) && Enabled(s, e) && StopsTold(config, s, turns, began) && e == StartSettled(false)
    ensures StopsTold(config, Next(config, s, e), turns, began)
  {
    AlongBegins(StopOrder(s.resources, s.start.at), config.shutdownTimeoutMs <= 0);
  }

  lemma SettledTold(config: Config, s: State, e: Event, turns: seq<Turn>, began: Option<nat>)
    requires Inv(s) && Enabled(s, e) && StopsTold(config, s, turns, began) && e.StopSettled?
    ensures StopsTold(config, Next(config, s, e), turns + [e.turn], began)
  {
    if s.start.RollingBack? {
      AlongGoesOn(s.start.order, config.shutdownTimeoutMs <= 0, turns, s.start.progress, e.turn);
    } else {
      AlongGoesOn(Order(s), config.shutdownTimeoutMs <= began.value, turns, s.shutdown.progress, e.turn);
    }
  }

  lemma RolledBackTold(config: Config, s: State, turns: seq<Turn>, began: Option<nat>)
    requires Inv(s) && StopsTold(config, s, turns, began) && s.start.RollingBack? && s.start.progress.Finished?
    ensures StopsTold(config, AfterStopAll(s), turns, began)
  {
    var order, p := s.start.order, s.start.progress;
    assert Over(order, config.shutdownTimeoutMs <= 0, turns, p.failed, p.pending);
    assert RolledBack(order, config.shutdownTimeoutMs <= 0, turns, s.stops);
  }

  lemma StoppedTold(config: Config, s: State, turns: seq<Turn>, began: Option<nat>)
    requires s.start.Started? && s.shutdown.StoppingAll? && s.shutdown.progress.Finished?
    requires StopsAlong(s, |s.resources|, Order(s), s.shutdown.progress) && StopsTold(config, s, turns, began)
    ensures StopsTold(config, AfterStopAll(s), turns, began)
  {
    var t := AfterStopAll(s);
    assert t.resources == s.resources && t.stops == s.stops && t.start == s.start;
    assert t.shutdown.result.failed == s.shutdown.progress.failed;
    assert t.shutdown.result.pending == s.shutdown.progress.pending;
  }

  lemma ReturnedTold(config: Config, s: State, e: Event, turns: seq<Turn>, began: Option<nat>)
    requires Inv(s) && Enabled(s, e) && StopsTold(config, s, turns, began) && e.StopAllReturned?
    ensures StopsTold(config, Next(config, s, e), turns, began)
  {
    if s.start.RollingBack? {
      RolledBackTold(config, s, turns, began);
    } else {
      assert InvShutdown(s);
      StoppedTold(config, s, turns, began);
    }
  }

  /** A step of a shutdown: it begins to stop the resources, or leaves them. */
  lemma ShutdownTold(config: Config, s: State, e: Event, turns: seq<Turn>, began: Option<nat>)
    requires Inv(s) && Enabled(s, e) && StopsTold(config, s, turns, began) && PassedAt(e).Some?
    ensures StopsTold(config, Next(config, s, e), turns, Began(s, Next(config, s, e), e, began))
  {
    var t, elapsed := Next(config, s, e), PassedAt(e).value;
    if !s.shutdown.StoppingAll? && t.shutdown.StoppingAll? {
      BeganStopping(config, s, e);
      AlongBegins(Order(s), config.shutdownTimeoutMs <= elapsed);
    } else {
      StoppingLeft(config, s, e);
    }
  }

  lemma BeganStopping(config: Config, s: State, e: Event)
    requires Inv(s) && Enabled(s, e) && PassedAt(e).Some? && !s.shutdown.StoppingAll?
    requires Next(config, s, e).shutdown.StoppingAll?
    ensures var t := Next(config, s, e);
            && s.start.Started? && t.start == s.start && t.resources == s.resources
            && !s.shutdown.ShutDown?
            && t.shutdown.progress == GoOn(Order(s), 0, [], config.shutdownTimeoutMs <= PassedAt(e).value)
  {
  }

  lemma StoppingLeft(config: Config, s: State, e: Event)
    requires Inv(s) && Enabled(s, e) && PassedAt(e).Some?
    requires s.shutdown.StoppingAll? || !Next(config, s, e).shutdown.StoppingAll?
    ensures var t := Next(config, s, e);
            && t.start == s.start && t.resources == s.resources && t.stops == s.stops
            && (t.shutdown == s.shutdown
                || (!s.shutdown.ShutDown? && !s.shutdown.StoppingAll?
                    && (t.shutdown.ShutDown? ==> !s.start.Started?)))
  {
  }

  lemma OthersTold(config: Config, s: State, e: Event, turns: seq<Turn>, began: Option<nat>)
    requires Inv(s) && Enabled(s, e) && StopsTold(config, s, turns, began)
    requires e.AddResource? || e.CallStart? || e == StartSettled(true) || e.ExitCalled?
    ensures StopsTold(config, Next(config, s, e), turns, began)
    ensures Next(config, s, e).shutdown == s.shutdown
  {
  }

  lemma StepTold(config: Config, s: State, e: Event, turns: seq<Turn>, began: Option<nat>)
    requires Inv(s) && Enabled(s, e) && StopsTold(config, s, turns, began) && !PassedAt(e).Some?
    ensures StopsTold(config, Next(config, s, e), turns + if e.StopSettled? then [e.turn] else [], began)
  {
    assert turns + [] == turns;
    if e.StopSettled? {
      SettledTold(config, s, e, turns, began);
    } else if e.StopAllReturned? {
      ReturnedTold(config, s, e, turns, began);
    } else if e == StartSettled(false) {
      RollbackTold(config, s, e, turns, began);
    } else {
      OthersTold(config, s, e, turns, began);
    }
  }

  lemma BeganIsKept(config: Config, s: State, e: Event, turns: seq<Turn>, began: Option<nat>)
    requires Inv(s) && Enabled(s, e) && !PassedAt(e).Some?
    ensures Began(s, Next(config, s, e), e, began) == began
  {
  }

  lemma {:induction false} StopsAreTold(config: Config, trace: seq<Event>)
    requires Feasible(config, trace)
    ensures StopsTold(config, Run(config, trace), Turns(trace), BeganAfter(config, trace))
  {
    if trace != [] {
      var before, e := trace[..|trace| - 1], trace[|trace| - 1];
      var s, turns, began := Run(config, before), Turns(before), BeganAfter(config, before);
      StopsAreTold(config, before);
      RunKeeps(config, before);
      if PassedAt(e).Some? {
        ShutdownTold(config, s, e, turns, began);
        assert turns + [] == turns;
      } else {
        StepTold(config, s, e, turns, began);
        BeganIsKept(config, s, e, turns, began);
      }
    }
  }

  /**
   The result of a started service, from how the races of its stops ended: `failed` are those whose stop threw before
   the deadline was noticed, `pending` those from there on, and nothing else was stopped. The deadline counts from the
   call: when draining or waiting has used it up, nothing is stopped at all.
   */
  lemma ResultIsTold(config: Config, trace: seq<Event>)
    requires Feasible(config, trace)
    requires Run(config, trace).start.Started? && Run(config, trace).shutdown.ShutDown?
    ensures var s, turns, began := Run(config, trace), Turns(trace), BeganAfter(config, trace);
            && began.Some? && |turns| <= |s.resources| && s.stops == Order(s)[..|turns|]
            && Over(Order(s), config.shutdownTimeoutMs <= began.value, turns,
                    s.shutdown.result.failed, s.shutdown.result.pending)
  {
    StopsAreTold(config, trace);
  }

  /** After a failed startup those that had started were stopped, up to the deadline, which is the whole budget. */
  lemma RollbackIsTold(config: Config, trace: seq<Event>)
    requires Feasible(config, trace) && Run(config, trace).start.StartFailed?
    ensures var s, n := Run(config, trace), CountStarted(trace);
            n <= |s.resources|
            && RolledBack(StopOrder(s.resources, n), config.shutdownTimeoutMs <= 0, Turns(trace), s.stops)
  {
    StopsAreTold(config, trace);
    StartupIsCounted(config, trace);
  }

  // ----- Every shutdown ends -----

  /** A step of the service itself, as opposed to what is done with it. */
  predicate Own(e: Event) {
    e.StartSettled? || e.StartAwaited? || e.DrainOver? || e.StopSettled? || e.StopAllReturned?
  }

  function StopsLeft(n: nat, p: Progress): int {
    if p.InFlight? then n - p.at + 1 else 1
  }

  /** How many steps the service can still have before it. */
  function Left(s: State): int {
    var n := |s.resources|;
    (match s.start
     case StartingAt(at) => 2 * n - at + 2
     case RollingBack(order, p) => StopsLeft(|order|, p)
     case _ => 0)
    + match s.shutdown
      case AwaitingStart(_) => n + 3
      case Draining(_) => n + 2
      case StoppingAll(_, p) => StopsLeft(n, p)
      case _ => 0
  }

  lemma StopsAdvance(order: seq<nat>, p: Progress, turn: Turn)
    requires p.InFlight? && p.at < |order|
    ensures StopsLeft(|order|, Advance(order, p, turn)) < StopsLeft(|order|, p)
  {
  }

  lemma LeftAfterStop(config: Config, s: State, e: Event)
    requires Inv(s) && Enabled(s, e) && !s.shutdown.NotShut? && (e.StopSettled? || e.StopAllReturned?)
    ensures var t := Next(config, s, e); !t.shutdown.NotShut? && Left(t) < Left(s)
  {
    if e.StopSettled? {
      if s.start.RollingBack? {
        StopsAdvance(s.start.order, s.start.progress, e.turn);
      } else {
        StopsAdvance(Order(s), s.shutdown.progress, e.turn);
      }
    }
  }

  lemma LeftAfterStart(config: Config, s: State, e: Event)
    requires Inv(s) && Enabled(s, e) && !s.shutdown.NotShut? && e.StartSettled?
    ensures var t := Next(config, s, e); !t.shutdown.NotShut? && Left(t) < Left(s)
  {
  }

  lemma LeftStep(config: Config, s: State, e: Event)
    requires Inv(s) && Enabled(s, e) && !s.shutdown.NotShut?
    ensures var t := Next(config, s, e); !t.shutdown.NotShut? && Left(t) <= Left(s) - if Own(e) then 1 else 0
  {
    if e.StopSettled? || e.StopAllReturned? {
      LeftAfterStop(config, s, e);
    } else if e.StartSettled? {
      LeftAfterStart(config, s, e);
    }
  }

  lemma LeftIsNatural(s: State)
    requires Inv(s)
    ensures 0 <= Left(s) <= 3 * |s.resources| + 5
  {
  }

  /** A shutdown that has begun and not ended has a step to take. */
  lemma ShutdownGoesOn(config: Config, trace: seq<Event>) returns (e: Event)
    requires Feasible(config, trace)
    requires !Run(config, trace).shutdown.NotShut? && !Run(config, trace).shutdown.ShutDown?
    ensures Own(e) && Enabled(Run(config, trace), e)
  {
    RunKeeps(config, trace);
    var s := Run(config, trace);
    e := if s.start.StartingAt? then StartSettled(true)
         else if s.shutdown.Draining? then DrainOver(0)
         else if (if s.start.RollingBack? then s.start.progress.InFlight?
                  else s.shutdown.StoppingAll? && s.shutdown.progress.InFlight?) then StopSettled(DeadlineFirst)
         else if s.start.RollingBack? || s.shutdown.StoppingAll? then StopAllReturned
         else StartAwaited(0);
  }

  function OwnSteps(trace: seq<Event>): nat {
    if trace == [] then 0
    else OwnSteps(trace[..|trace| - 1]) + if Own(trace[|trace| - 1]) then 1 else 0
  }

  lemma {:induction false} LeftAlong(config: Config, trace: seq<Event>, more: seq<Event>)
    requires Feasible(config, trace + more) && !Run(config, trace).shutdown.NotShut? && Feasible(config, trace)
    ensures !Run(config, trace + more).shutdown.NotShut?
    ensures Left(Run(config, trace + more)) + OwnSteps(more) <= Left(Run(config, trace))
    decreases |more|
  {
    if more == [] {
      assert trace + more == trace;
    } else {
      var fewer := more[..|more| - 1];
      assert (trace + more)[..|trace + more| - 1] == trace + fewer;
      LeftAlong(config, trace, fewer);
      RunKeeps(config, trace + fewer);
      LeftStep(config, Run(config, trace + fewer), more[|more| - 1]);
    }
  }

  /** However often it is called or signalled meanwhile, a shutdown ends after so many steps of the service. */
  lemma ShutdownEnds(config: Config, trace: seq<Event>, more: seq<Event>)
    requires Feasible(config, trace) && Feasible(config, trace + more) && !Run(config, trace).shutdown.NotShut?
    ensures OwnSteps(more) <= 3 * |Run(config, trace).resources| + 5
  {
    RunKeeps(config, trace);
    RunKeeps(config, trace + more);
    LeftAlong(config, trace, more);
    LeftIsNatural(Run(config, trace));
    LeftIsNatural(Run(config, trace + more));
  }

  /** After a shutdown that a signal began, the call of `exit` is due until it has been made. */
  lemma ExitIsDue(config: Config, trace: seq<Event>)
    requires Feasible(config, trace) && Run(config, trace).shutdown.ShutDown? && BegunBySignal(config, trace)
    ensures var s := Run(config, trace);
            && (Enabled(s, ExitCalled) <==> s.exits == [])
            && (s.exits == [] ==>
                  Next(config, s, ExitCalled).exits == if s.shutdown.result.ok then [0] else [1])
  {
    ExitsOnce(config, trace);
  }
}
