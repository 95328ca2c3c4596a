/**
 A service's lifecycle (packages/bootstrap/src/service.ts): `start`, `shutdown` and signals interleave at every await.
 Each event is what runs between two awaits.
 */
module Lifecycle {
  import opened StopAll

  datatype Mode = Idle | Starting | Running | Stopping | Stopped | Failed

  datatype Config = Config(shutdownTimeoutMs: int, drainDelayMs: int)

  /** `order` and `progress` describe the rollback of the resources that had started, `started` of them. */
  datatype StartPhase =
    | NotStarted
    | StartingAt(at: nat)
    | RollingBack(order: seq<nat>, progress: Progress)
    | Started
    | StartFailed(started: nat)

  datatype Result = Result(ok: bool, reason: string, timedOut: bool, failed: seq<nat>, pending: seq<nat>)

  datatype ShutdownPhase =
    | NotShut
    | AwaitingStart(reason: string)
    | Draining(reason: string)
    | StoppingAll(reason: string, progress: Progress)
    | ShutDown(result: Result)

  /**
   `stops` lists the resources whose `stop` was called and `trail` every mode there has been, in order; `exits` are the
   codes passed to `exit`, and `handlers` counts the calls of `exit` that still wait for the shutdown.
   */
  datatype State = State(
    resources: seq<Resource>,
    mode: Mode,
    start: StartPhase,
    shutdown: ShutdownPhase,
    handlers: nat,
    listening: bool,
    stops: seq<nat>,
    trail: seq<Mode>,
    exits: seq<int>)

  const INITIAL := State([], Idle, NotStarted, NotShut, 0, false, [], [Idle], [])

  /** `elapsed` is the time since the shutdown was called. */
  datatype Event =
    | AddResource(resource: Resource)
    | CallStart
    | StartSettled(ok: bool)
    | CallShutdown(reason: string, elapsed: nat)
    | Signal(signal: string, elapsed: nat)
    | StartAwaited(elapsed: nat)
    | DrainOver(elapsed: nat)
    | StopSettled(turn: Turn)
    | StopAllReturned
    | ExitCalled

  predicate Enabled(s: State, e: Event) {
    match e
    case AddResource(_) => true
    case CallStart => true
    case CallShutdown(_, _) => true
    case StartSettled(_) => s.start.StartingAt?
    case Signal(_, _) => s.listening
    case StartAwaited(_) => s.shutdown.AwaitingStart? && (s.start.Started? || s.start.StartFailed?)
    case DrainOver(_) => s.shutdown.Draining?
    case StopSettled(_) =>
      (s.start.RollingBack? && s.start.progress.InFlight?) || (s.shutdown.StoppingAll? && s.shutdown.progress.InFlight?)
    case StopAllReturned =>
      (s.start.RollingBack? && s.start.progress.Finished?) || (s.shutdown.StoppingAll? && s.shutdown.progress.Finished?)
    case ExitCalled => s.shutdown.ShutDown? && s.handlers > 0
  }

  function Enter(s: State, mode: Mode): State {
    s.(mode := mode, trail := s.trail + [mode])
  }

  /** The call that comes with being in flight. */
  function Call(s: State, order: seq<nat>, p: Progress): State {
    if p.InFlight? && p.at < |order| then s.(stops := s.stops + [order[p.at]]) else s
  }

  function Registered(s: State, resource: Resource): State {
    if s.mode != Idle || exists i :: 0 <= i < |s.resources| && s.resources[i].name == resource.name then s
    else s.(resources := s.resources + [resource])
  }

  function StartNext(s: State, at: nat): State {
    if at < |s.resources| then s.(start := StartingAt(at)) else Enter(s.(start := Started), Running)
  }

  function BeginStart(s: State): State {
    if s.mode != Idle then s else StartNext(Enter(s.(listening := true), Starting), 0)
  }

  /** The resource at `at` did not start: those before it are stopped again, within a full budget. */
  function BeginRollback(config: Config, s: State, at: nat): State
    requires at <= |s.resources|
  {
    var order := StopOrder(s.resources, at);
    var p := GoOn(order, 0, [], config.shutdownTimeoutMs <= 0);
    Call(s.(start := RollingBack(order, p)), order, p)
  }

  function AfterStart(config: Config, s: State, ok: bool): State
    requires s.start.StartingAt? && s.start.at < |s.resources|
  {
    if ok then StartNext(s, s.start.at + 1) else BeginRollback(config, s, s.start.at)
  }

  function Order(s: State): seq<nat> {
    StopOrder(s.resources, |s.resources|)
  }

  function BeginStopAll(config: Config, s: State, reason: string, elapsed: nat): State {
    var p := GoOn(Order(s), 0, [], config.shutdownTimeoutMs - elapsed <= 0);
    Call(s.(shutdown := StoppingAll(reason, p)), Order(s), p)
  }

  predicate Drains(config: Config) {
    config.drainDelayMs > 0 && config.shutdownTimeoutMs > 0
  }

  /** The part of `shutdown` after it has waited for a startup in progress. */
  function ContinueShutdown(config: Config, s: State, reason: string, elapsed: nat): State {
    if s.mode != Running then
      var settled := if s.mode == Idle then Enter(s, Stopped) else s;
      settled.(listening := false, shutdown := ShutDown(Result(s.mode != Failed, reason, false, [], [])))
    else if Drains(config) then Enter(s.(shutdown := Draining(reason)), Stopping)
    else BeginStopAll(config, Enter(s, Stopping), reason, elapsed)
  }

  /** Every call after the first shares the first one's promise. */
  function BeginShutdown(config: Config, s: State, reason: string, elapsed: nat): State {
    if !s.shutdown.NotShut? then s
    else if s.mode == Starting then s.(shutdown := AwaitingStart(reason))
    else ContinueShutdown(config, s, reason, elapsed)
  }

  /** A signal that begins a shutdown leaves a call of `exit` to follow it. */
  function OnSignal(config: Config, s: State, signal: string, elapsed: nat): State {
    if !s.shutdown.NotShut? then s
    else BeginShutdown(config, s, signal, elapsed).(handlers := s.handlers + 1)
  }

  function AfterStop(s: State, turn: Turn): State {
    if s.start.RollingBack? then
      if s.start.progress.InFlight? && s.start.progress.at < |s.start.order| then
        var p := Advance(s.start.order, s.start.progress, turn);
        Call(s.(start := RollingBack(s.start.order, p)), s.start.order, p)
      else s
    else if s.shutdown.StoppingAll? && s.shutdown.progress.InFlight? && s.shutdown.progress.at < |Order(s)| then
      var p := Advance(Order(s), s.shutdown.progress, turn);
      Call(s.(shutdown := StoppingAll(s.shutdown.reason, p)), Order(s), p)
    else s
  }

  function AfterStopAll(s: State): State {
    if s.start.RollingBack? then Enter(s.(start := StartFailed(|s.start.order|), listening := false), Failed)
    else if s.shutdown.StoppingAll? && s.shutdown.progress.Finished? then
      var p := s.shutdown.progress;
      var timedOut := |p.pending| > 0;
      var result := Result(|p.failed| == 0 && !timedOut, s.shutdown.reason, timedOut, p.failed, p.pending);
      Enter(s.(shutdown := ShutDown(result), listening := false), Stopped)
    else s
  }

  function ExitCode(result: Result): int {
    if result.ok then 0 else 1
  }

  function Next(config: Config, s: State, e: Event): State {
    match e
    case AddResource(resource) => Registered(s, resource)
    case CallStart => BeginStart(s)
    case StartSettled(ok) => if s.start.StartingAt? && s.start.at < |s.resources| then AfterStart(config, s, ok) else s
    case CallShutdown(reason, elapsed) => BeginShutdown(config, s, reason, elapsed)
    case Signal(signal, elapsed) => OnSignal(config, s, signal, elapsed)
    case StartAwaited(elapsed) =>
      if s.shutdown.AwaitingStart? then ContinueShutdown(config, s, s.shutdown.reason, elapsed) else s
    case DrainOver(elapsed) =>
      if s.shutdown.Draining? then BeginStopAll(config, s, s.shutdown.reason, elapsed) else s
    case StopSettled(turn) => AfterStop(s, turn)
    case StopAllReturned => AfterStopAll(s)
    case ExitCalled =>
      if s.shutdown.ShutDown? && s.handlers > 0 then
        s.(handlers := s.handlers - 1, exits := s.exits + [ExitCode(s.shutdown.result)])
      else s
  }

  function Run(config: Config, trace: seq<Event>): State {
    if trace == [] then INITIAL else Next(config, Run(config, trace[..|trace| - 1]), trace[|trace| - 1])
  }

  predicate Feasible(config: Config, trace: seq<Event>) {
    trace == [] || (Feasible(config, trace[..|trace| - 1])
                    && Enabled(Run(config, trace[..|trace| - 1]), trace[|trace| - 1]))
  }

  // ----- The invariant -----

  /** The declared edges between modes. */
  predicate Edge(a: Mode, b: Mode) {
    match a
    case Idle => b == Starting || b == Stopped
    case Starting => b == Running || b == Failed
    case Running => b == Stopping
    case Stopping => b == Stopped
    case Stopped => false
    case Failed => false
  }

  predicate FollowsEdges(trail: seq<Mode>, last: Mode) {
    && trail != [] && trail[0] == Idle && trail[|trail| - 1] == last
    && forall i :: 0 < i < |trail| ==> Edge(trail[i - 1], trail[i])
  }

  predicate UniqueNames(resources: seq<Resource>) {
    forall i, j :: 0 <= i < j < |resources| ==> resources[i].name != resources[j].name
  }

  /** A stop run over the first `n` resources, and the calls it has made. */
  ghost predicate StopsAlong(s: State, n: nat, order: seq<nat>, p: Progress) {
    && n <= |s.resources| && order == StopOrder(s.resources, n)
    && Consistent(order, p) && Called(p) <= |order| && s.stops == order[..Called(p)]
  }

  ghost predicate InvStart(s: State) {
    match s.start
    case NotStarted => (s.mode == Idle || s.mode == Stopped) && s.stops == []
    case StartingAt(at) => s.mode == Starting && at < |s.resources| && s.stops == []
    case RollingBack(order, p) => s.mode == Starting && |order| < |s.resources| && StopsAlong(s, |order|, order, p)
    case Started => s.mode == Running || s.mode == Stopping || s.mode == Stopped
    case StartFailed(started) =>
      s.mode == Failed && started < |s.resources| && s.stops <= StopOrder(s.resources, started)
  }

  ghost predicate InvShutdown(s: State) {
    match s.shutdown
    case NotShut => (s.mode == Stopping || s.mode == Stopped ==> false) && (s.start.Started? ==> s.stops == [])
    case AwaitingStart(_) =>
      (s.mode == Starting || s.mode == Running || s.mode == Failed) && (s.start.Started? ==> s.stops == [])
    case Draining(_) => s.mode == Stopping && s.stops == []
    case StoppingAll(_, p) => s.mode == Stopping && StopsAlong(s, |s.resources|, Order(s), p)
    case ShutDown(result) =>
      && (s.mode == Stopped || s.mode == Failed)
      && (s.start.Started? ==> ResultIsRight(s, result))
      && (!s.start.Started? ==> result.ok == (s.mode == Stopped) && result.failed == [] && result.pending == []
                                && !result.timedOut)
  }

  /** The result accounts for every resource. */
  ghost predicate ResultIsRight(s: State, result: Result) {
    && StopsAlong(s, |s.resources|, Order(s), Finished(|s.stops|, result.failed, result.pending))
    && (result.timedOut <==> result.pending != [])
    && (result.ok <==> result.failed == [] && result.pending == [])
  }

  ghost predicate InvExits(s: State) {
    && |s.exits| + s.handlers <= 1
    && (s.exits != [] ==> s.shutdown.ShutDown? && s.exits == [ExitCode(s.shutdown.result)])
    && (s.shutdown.NotShut? ==> s.exits == [] && s.handlers == 0)
  }

  ghost predicate Inv(s: State) {
    FollowsEdges(s.trail, s.mode) && UniqueNames(s.resources) && InvStart(s) && InvShutdown(s) && InvExits(s)
  }

  lemma EnterFollows(trail: seq<Mode>, last: Mode, mode: Mode)
    requires FollowsEdges(trail, last) && Edge(last, mode)
    ensures FollowsEdges(trail + [mode], mode)
  {
  }

  lemma OrderHasNoDuplicates(resources: seq<Resource>, n: nat)
    requires n <= |resources|
    ensures NoDuplicates(StopOrder(resources, n))
  {
    StopOrderIsRight(resources, n);
  }

  /** A stop run that begins or goes on calls the next resource, if there is one to call. */
  lemma CallFollows(s: State, n: nat, order: seq<nat>, p: Progress)
    requires n <= |s.resources| && order == StopOrder(s.resources, n) && Consistent(order, p)
    requires Called(p) <= |order|
    requires s.stops == order[..if p.InFlight? then p.at else p.called]
    ensures StopsAlong(Call(s, order, p), n, order, p)
  {
  }

  lemma AdvanceFollows(s: State, n: nat, order: seq<nat>, p: Progress, turn: Turn)
    requires StopsAlong(s, n, order, p) && p.InFlight?
    ensures StopsAlong(Call(s, order, Advance(order, p, turn)), n, order, Advance(order, p, turn))
  {
    OrderHasNoDuplicates(s.resources, n);
    AdvanceConsistent(order, p, turn);
    CallFollows(s, n, order, Advance(order, p, turn));
  }

  lemma BeginFollows(s: State, n: nat, order: seq<nat>, late: bool)
    requires n <= |s.resources| && order == StopOrder(s.resources, n) && s.stops == []
    ensures StopsAlong(Call(s, order, GoOn(order, 0, [], late)), n, order, GoOn(order, 0, [], late))
  {
  }
}
