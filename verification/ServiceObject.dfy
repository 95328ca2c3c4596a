/**
 The service as it runs: closure variables reassigned between awaits (packages/bootstrap/src/service.ts). Each method is
 one uninterrupted stretch, and is one step of `Lifecycle`.
 */
module ServiceObject {
  import opened StopAll
  import opened Lifecycle

  class Service {
    const config: Config
    var resources: seq<Resource>
    var mode: Mode
    var startPhase: StartPhase
    var shutdownPhase: ShutdownPhase
    /** The calls of `exit` that wait for the shutdown promise. */
    var handlers: nat
    var listening: bool
    /** What the outside sees: `stop` calls, modes and exit codes. */
    var stops: seq<nat>
    var trail: seq<Mode>
    var exits: seq<int>

    function View(): State
      reads this
    {
      State(resources, mode, startPhase, shutdownPhase, handlers, listening, stops, trail, exits)
    }

    constructor (config: Config)
      ensures this.config == config && View() == INITIAL
    {
      this.config := config;
      resources, mode, startPhase, shutdownPhase := [], Idle, NotStarted, NotShut;
      handlers, listening, stops, trail, exits := 0, false, [], [Idle], [];
    }

    method SetMode(next: Mode)
      modifies this
      ensures View() == Enter(old(View()), next)
    {
      mode := next;
      trail := trail + [next];
    }

    /** `false` is the `LifecycleError`: not idle any more, or the name is taken. */
    method AddResource(resource: Resource) returns (added: bool)
      modifies this
      ensures View() == Next(config, old(View()), Event.AddResource(resource))
      ensures added <==> old(mode).Idle? && forall r :: r in old(resources) ==> r.name != resource.name
    {
      if !mode.Idle? {
        return false;
      }
      for i := 0 to |resources|
        invariant View() == old(View())
        invariant forall j :: 0 <= j < i ==> resources[j].name != resource.name
      {
        if resources[i].name == resource.name {
          return false;
        }
      }
      resources := resources + [resource];
      return true;
    }

    /** The loop over the resources, up to the next `start` to wait for. */
    method StartFrom(at: nat)
      modifies this
      ensures View() == StartNext(old(View()), at)
    {
      if at < |resources| {
        startPhase := StartingAt(at);
      } else {
        startPhase := Started;
        SetMode(Running);
      }
    }

    /** `false` is the rejection: the service is not idle any more. */
    method Start() returns (accepted: bool)
      modifies this
      ensures View() == Next(config, old(View()), CallStart)
      ensures accepted <==> old(mode).Idle?
    {
      if !mode.Idle? {
        return false;
      }
      listening := true;
      SetMode(Starting);
      StartFrom(0);
      return true;
    }

    /** `stopAll` up to its first race. */
    method EnterStopAll(ghost n: nat, order: seq<nat>, budgetMs: int) returns (p: Progress)
      requires n <= |resources| && order == StopOrder(resources, n)
      modifies this`stops
      ensures p == GoOn(order, 0, [], budgetMs <= 0)
      ensures View() == Call(old(View()), order, p)
    {
      p := ResumeStopAll(order, 0, [], budgetMs <= 0);
    }

    /** The top of the loop in `stopAll`. */
    method ResumeStopAll(order: seq<nat>, at: nat, failed: seq<nat>, aborted: bool) returns (p: Progress)
      requires at <= |order|
      modifies this`stops
      ensures p == GoOn(order, at, failed, aborted)
      ensures View() == Call(old(View()), order, p)
    {
      if at == |order| {
        return Finished(at, failed, []);
      }
      if aborted {
        return Finished(at, failed, order[at..]);
      }
      stops := stops + [order[at]];
      return InFlight(at, failed);
    }

    /** What follows the race for one resource. */
    method RaceSettled(order: seq<nat>, p: Progress, turn: Turn) returns (q: Progress)
      requires p.InFlight? && p.at < |order|
      modifies this`stops
      ensures q == Advance(order, p, turn)
      ensures View() == Call(old(View()), order, q)
    {
      match turn {
        case DeadlineFirst =>
          return Finished(p.at + 1, p.failed, order[p.at..]);
        case Returned(late) =>
          q := ResumeStopAll(order, p.at + 1, p.failed, late);
        case Threw(late) =>
          q := ResumeStopAll(order, p.at + 1, p.failed + [order[p.at]], late);
      }
    }

    method StartSettled(ok: bool)
      requires startPhase.StartingAt? && startPhase.at < |resources|
      modifies this
      ensures View() == Next(config, old(View()), Event.StartSettled(ok))
    {
      var at := startPhase.at;
      if ok {
        StartFrom(at + 1);
        return;
      }
      var order := StopOrder(resources, at);
      var p := EnterStopAll(at, order, config.shutdownTimeoutMs);
      startPhase := RollingBack(order, p);
    }

    method Shutdown(reason: string, elapsed: nat)
      modifies this
      ensures View() == Next(config, old(View()), CallShutdown(reason, elapsed))
    {
      if !shutdownPhase.NotShut? {
        return;
      }
      if mode.Starting? {
        shutdownPhase := AwaitingStart(reason);
        return;
      }
      ShutdownStarted(reason, elapsed);
    }

    method OnSignal(signal: string, elapsed: nat)
      modifies this
      ensures View() == Next(config, old(View()), Signal(signal, elapsed))
    {
      if !shutdownPhase.NotShut? {
        return;
      }
      Shutdown(signal, elapsed);
      handlers := handlers + 1;
    }

    method StartAwaited(elapsed: nat)
      requires shutdownPhase.AwaitingStart?
      modifies this
      ensures View() == Next(config, old(View()), Event.StartAwaited(elapsed))
    {
      ShutdownStarted(shutdownPhase.reason, elapsed);
    }

    method ShutdownStarted(reason: string, elapsed: nat)
      modifies this
      ensures View() == ContinueShutdown(config, old(View()), reason, elapsed)
    {
      if !mode.Running? {
        var ok := !mode.Failed?;
        if mode.Idle? {
          SetMode(Stopped);
        }
        listening := false;
        shutdownPhase := ShutDown(Result(ok, reason, false, [], []));
        return;
      }
      SetMode(Stopping);
      var drain := config.shutdownTimeoutMs;
      if config.drainDelayMs < drain {
        drain := config.drainDelayMs;
      }
      if drain > 0 {
        shutdownPhase := Draining(reason);
      } else {
        Drained(reason, elapsed);
      }
    }

    method Drained(reason: string, elapsed: nat)
      modifies this
      ensures View() == BeginStopAll(config, old(View()), reason, elapsed)
    {
      var order := StopOrder(resources, |resources|);
      var p := EnterStopAll(|resources|, order, config.shutdownTimeoutMs - elapsed);
      shutdownPhase := StoppingAll(reason, p);
    }

    method DrainOver(elapsed: nat)
      requires shutdownPhase.Draining?
      modifies this
      ensures View() == Next(config, old(View()), Event.DrainOver(elapsed))
    {
      Drained(shutdownPhase.reason, elapsed);
    }

    method RollbackStopSettled(turn: Turn)
      requires startPhase.RollingBack? && startPhase.progress.InFlight? && startPhase.progress.at < |startPhase.order|
      modifies this
      ensures View() == Next(config, old(View()), StopSettled(turn))
    {
      var order := startPhase.order;
      var p := RaceSettled(order, startPhase.progress, turn);
      startPhase := RollingBack(order, p);
    }

    method ShutdownStopSettled(turn: Turn)
      requires !startPhase.RollingBack? && shutdownPhase.StoppingAll? && shutdownPhase.progress.InFlight?
      requires shutdownPhase.progress.at < |resources|
      modifies this
      ensures View() == Next(config, old(View()), StopSettled(turn))
    {
      var p := RaceSettled(StopOrder(resources, |resources|), shutdownPhase.progress, turn);
      shutdownPhase := StoppingAll(shutdownPhase.reason, p);
    }

    method RollbackReturned()
      requires startPhase.RollingBack? && startPhase.progress.Finished?
      modifies this
      ensures View() == Next(config, old(View()), StopAllReturned)
    {
      startPhase := StartFailed(|startPhase.order|);
      SetMode(Failed);
      listening := false;
    }

    method ShutdownReturned()
      requires !startPhase.RollingBack? && shutdownPhase.StoppingAll? && shutdownPhase.progress.Finished?
      modifies this
      ensures View() == Next(config, old(View()), StopAllReturned)
    {
      var p, reason := shutdownPhase.progress, shutdownPhase.reason;
      SetMode(Stopped);
      listening := false;
      var timedOut := |p.pending| > 0;
      shutdownPhase := ShutDown(Result(|p.failed| == 0 && !timedOut, reason, timedOut, p.failed, p.pending));
    }

    method Exit()
      requires shutdownPhase.ShutDown? && handlers > 0
      modifies this
      ensures View() == Next(config, old(View()), ExitCalled)
    {
      handlers := handlers - 1;
      exits := exits + [ExitCode(shutdownPhase.result)];
    }
  }
}
