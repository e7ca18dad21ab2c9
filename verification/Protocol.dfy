/**
 The supervision protocol as a transition system.

 A state is what the daemon's main loop holds plus the kernel's view of its children.  An event is
 one step of the loop together with everything the environment chose for it: which children
 exited, what a spawn or a probe answered, which command a client sent and what the clock read.
 `After` replays a history of events; theorems about the daemon quantify over all legal histories.
 */
module Protocol {
  import opened Basics
  import opened Processes
  import opened Managers
  import Health

  /** The configuration values the protocol depends on; times are in seconds. */
  datatype Config = Config(
    autoStart: bool,
    failThreshold: nat,
    healthInterval: nat,
    bootTimeout: nat,
    probeDelay: nat,
    caTimeout: nat,
    grace: nat)

  datatype Cause = VmCrashed | CaCrashed | VmStart | VsockTimeout | CaStart

  datatype Phase =
    | NotStarted
    | VmStarting
    | WaitingVsock(deadline: Time, bootStart: Time, delayDone: bool)
    | CaStarting
    | WaitingCaPort(portDeadline: Time)
    | Complete
    | Failed(cause: Cause)
  {
    predicate Terminal() { NotStarted? || Complete? || Failed? }
  }

  datatype Which = Vm | Ca

  datatype State = State(
    vm: Status,
    ca: Status,
    phase: Phase,
    counters: Health.Counters,
    lastHealth: Time,
    clock: Time,
    procs: Procs,
    serving: bool)
  {
    function Of(w: Which): Status { if w.Vm? then vm else ca }

    function With(w: Which, m: Status): State { if w.Vm? then this.(vm := m) else this.(ca := m) }

    function Start(w: Which, o: SpawnOutcome): State {
      With(w, Of(w).Start(o)).(procs := procs.Fork(o))
    }

    function Stop(w: Which): State {
      With(w, Of(w).Stop()).(procs := procs.Condemn(Of(w).pid))
    }
  }

  datatype Command =
    | StartAll(vmOutcome: SpawnOutcome)
    | StopAll
    | StartVm(vmOutcome: SpawnOutcome)
    | StopVm
    | StartCa(caOutcome: SpawnOutcome)
    | StopCa
    | Inert                           // ping, status, tail_log, unknown or malformed

  datatype Action =
    | Exits(pids: set<Pid>)           // children exit on their own or because of a signal
    | Reap(pid: Pid, respawn: SpawnOutcome)
    | Handle(command: Command)
    | Advance(spawn: SpawnOutcome, answer: bool)
    | HealthCheck(outcome: Health.Outcome, respawn: SpawnOutcome)
    | ResetCounts
    | Shutdown

  /** `at` and `until` are the first and the last clock reading of the step. */
  datatype Event = Event(at: Time, action: Action, until: Time)

  function Initial(c: Config, start: Time): State {
    State(NEW_MANAGER, NEW_MANAGER, if c.autoStart then VmStarting else NotStarted,
          Health.FRESH, start, start, NO_CHILDREN, true)
  }

  // ---------------------------------------------------------------- steps

  /** `handle_child_death`, for a child that `waitpid` has just collected. */
  function ChildDeath(s: State, p: Pid, now: Time, o: SpawnOutcome): State {
    if s.vm.OwnsPid(p) then
      var m := s.vm.MarkDead();
      s.(vm := if m.crashes >= MAX_CRASHES then m.SetStage(Error, now) else m)
    else if s.ca.OwnsPid(p) then
      var m := s.ca.MarkDead();
      if m.crashes < MAX_CRASHES then s.(ca := m).Start(Ca, o)
      else s.(ca := m.SetStage(Error, now))
    else s
  }

  /** The start and stop handlers of the IPC server. */
  function Dispatch(s: State, cmd: Command): State {
    match cmd
    case StartAll(o) => s.Start(Vm, o)
    case StopAll => s.Stop(Ca).Stop(Vm)
    case StartVm(o) => s.Start(Vm, o)
    case StopVm => s.Stop(Vm)
    case StartCa(o) => s.Start(Ca, o)
    case StopCa => s.Stop(Ca)
    case Inert => s
  }

  /** The vsock deadline; the two second counts are added in 64 bits. */
  function VsockDeadline(c: Config, now: Time): (d: Time)
    ensures now <= d <= now + (c.probeDelay + c.bootTimeout) * SECOND
  {
    now + (c.probeDelay + c.bootTimeout) % U64_RANGE * SECOND
  }

  /** `advance_startup`: `at` is the reading compared with a deadline, `until` stamps readiness. */
  function AdvanceStartup(c: Config, s: State, at: Time, until: Time, o: SpawnOutcome, answer: bool): State {
    if s.vm.IsDead(s.procs) && !s.phase.Terminal() then
      s.(phase := if s.vm.crashes < MAX_CRASHES then VmStarting else Failed(VmCrashed))
    else if s.ca.IsDead(s.procs) && s.phase.WaitingCaPort? then
      s.(phase := if s.ca.crashes < MAX_CRASHES then CaStarting else Failed(CaCrashed))
    else
      match s.phase
      case NotStarted => s
      case Complete => s
      case Failed(_) => s
      case VmStarting =>
        s.Start(Vm, o).(phase := if o.Spawned? then WaitingVsock(VsockDeadline(c, at), at, false)
                                 else Failed(VmStart))
      case WaitingVsock(deadline, bootStart, delayDone) =>
        if !delayDone then
          if at >= bootStart + c.probeDelay * SECOND then s.(phase := WaitingVsock(deadline, bootStart, true))
          else s
        else if at > deadline then s.(phase := Failed(VsockTimeout))
        else if answer then s.(vm := s.vm.SetStage(Ready, until), phase := CaStarting)
        else s
      case CaStarting =>
        s.Start(Ca, o).(phase := if o.Spawned? then WaitingCaPort(at + c.caTimeout * SECOND)
                                 else Failed(CaStart))
      case WaitingCaPort(deadline) =>
        if answer then s.(ca := s.ca.SetStage(Ready, until), phase := Complete)
        else if at > deadline then s.(phase := Complete)
        else s
  }

  predicate HealthDue(c: Config, s: State, at: Time) { at >= s.lastHealth + c.healthInterval * SECOND }

  predicate Probed(s: State) { s.ca.stage.Ready? || s.ca.stage.Up? }

  /** The health check of the main loop. */
  function CheckHealth(c: Config, s: State, at: Time, until: Time, out: Health.Outcome, o: SpawnOutcome): State {
    if !HealthDue(c, s, at) then s
    else if !Probed(s) then s.(lastHealth := until)
    else
      var (k, v) := Health.Probe(c.failThreshold, s.counters, out);
      var s1 := s.(counters := k, lastHealth := until);
      if v.RestartNeeded? then s1.Stop(Ca).Start(Ca, o) else s1
  }

  function Step(c: Config, s: State, e: Event): State {
    var s1 := s.(clock := e.until);
    match e.action
    case Exits(ps) => s1.(procs := s.procs.Exit(ps))
    case Reap(p, o) => ChildDeath(s1.(procs := s.procs.Collect(p)), p, e.until, o)
    case Handle(cmd) => Dispatch(s1, cmd)
    case Advance(o, answer) => AdvanceStartup(c, s1, e.at, e.until, o, answer)
    case HealthCheck(out, o) => CheckHealth(c, s1, e.at, e.until, out, o)
    case ResetCounts => s1.(vm := s.vm.MaybeReset(e.at), ca := s.ca.MaybeReset(e.until))
    case Shutdown => s1.Stop(Ca).Stop(Vm).(serving := false)
  }

  /** What the kernel and the clock allow; nothing but exits happens after shutdown. */
  predicate Enabled(s: State, e: Event) {
    && s.clock <= e.at <= e.until
    && (e.action.Exits? || s.serving)
    && match e.action
       case Exits(ps) => ps <= s.procs.running
       case Reap(p, o) => p in s.procs.zombies && s.procs.Collect(p).Allows(o)
       case Handle(StartAll(o)) => s.procs.Allows(o)
       case Handle(StartVm(o)) => s.procs.Allows(o)
       case Handle(StartCa(o)) => s.procs.Allows(o)
       case Handle(_) => true
       case Advance(o, _) => s.procs.Allows(o)
       case HealthCheck(_, o) => s.procs.Allows(o)
       case ResetCounts => true
       case Shutdown => true
  }

  // ---------------------------------------------------------------- histories

  /** The configuration and the clock reading with which the main loop was entered. */
  datatype Run = Run(config: Config, start: Time)

  function After(r: Run, h: seq<Event>): State {
    if h == [] then Initial(r.config, r.start)
    else Step(r.config, After(r, h[..|h| - 1]), h[|h| - 1])
  }

  predicate Legal(r: Run, h: seq<Event>) {
    h == [] || (Legal(r, h[..|h| - 1]) && Enabled(After(r, h[..|h| - 1]), h[|h| - 1]))
  }

  /** How many steps of the history satisfy `p`, a property of a step's states before and after. */
  function Tally(r: Run, h: seq<Event>, p: (State, Event, State) -> bool): nat {
    if h == [] then 0 else
    var front := h[..|h| - 1];
    Tally(r, front, p) + if p(After(r, front), h[|h| - 1], After(r, h)) then 1 else 0
  }

  lemma Extend(r: Run, h: seq<Event>, e: Event)
    ensures After(r, h + [e]) == Step(r.config, After(r, h), e)
    ensures Legal(r, h + [e]) <==> Legal(r, h) && Enabled(After(r, h), e)
    ensures forall p :: Tally(r, h + [e], p) == Tally(r, h, p) + (if p(After(r, h), e, After(r, h + [e])) then 1 else 0)
  {
    assert (h + [e])[..|h|] == h;
  }

  /** A prefix of a legal history is legal. */
  lemma {:induction false} PrefixLegal(r: Run, h: seq<Event>, n: nat)
    requires Legal(r, h) && n <= |h|
    ensures Legal(r, h[..n])
  {
    if n == |h| {
      assert h[..n] == h;
    } else {
      PrefixLegal(r, h[..|h| - 1], n);
      assert h[..|h| - 1][..n] == h[..n];
    }
  }
}
