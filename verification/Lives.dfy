/**
 A manager is what happened to it.  Each step of a run writes what it did to a manager into that
 manager's life, told by the step's guards alone; the manager's fields are then read off the life,
 each by its own rule: who was born last, how many died since the last forgiveness, and so on.
 */
module Lives {
  import opened Basics
  import opened Processes
  import opened Managers
  import opened Protocol
  import opened Ownership
  import opened Recovery

  datatype Fate =
    | Tried                           // a spawn failed
    | Born(pid: Pid)
    | Readied(at: Time)
    | Stopped
    | Perished                        // the tracked child was collected
    | Forgiven

  // ---------------------------------------------------------------- reading a life

  function LastOf(life: seq<Fate>): Fate
    requires life != []
  {
    life[|life| - 1]
  }

  function Before(life: seq<Fate>): seq<Fate>
    requires life != []
  {
    life[..|life| - 1]
  }

  /** Deaths since the last forgiveness. */
  function Deaths(life: seq<Fate>): nat {
    if life == [] || LastOf(life).Forgiven? then 0
    else Deaths(Before(life)) + if LastOf(life).Perished? then 1 else 0
  }

  /** The child born last, unless it perished or was stopped since. */
  function Child(life: seq<Fate>): Option<Pid> {
    if life == [] then None
    else match LastOf(life)
      case Born(p) => Some(p)
      case Stopped => None
      case Perished => None
      case _ => Child(Before(life))
  }

  /** The last time of becoming ready, unless it perished or was stopped since. */
  function ReadyStamp(life: seq<Fate>): Option<Time> {
    if life == [] then None
    else match LastOf(life)
      case Readied(t) => Some(t)
      case Stopped => None
      case Perished => None
      case _ => ReadyStamp(Before(life))
  }

  /** The last thing that happened, forgiveness aside; the fifth unforgiven death is one too many. */
  function Condition(life: seq<Fate>): Stage {
    if life == [] then Idle
    else match LastOf(life)
      case Tried => Starting
      case Born(_) => Up
      case Readied(_) => Ready
      case Stopped => Idle
      case Perished => if Deaths(life) >= 5 then Error else Idle
      case Forgiven => Condition(Before(life))
  }

  predicate Told(m: Status, life: seq<Fate>) {
    m.stage == Condition(life) && m.pid == Child(life) && m.crashes == Deaths(life) && m.readySince == ReadyStamp(life)
  }

  // ---------------------------------------------------------------- writing a life

  /** What an attempt to start a manager does to it: nothing if the files it needs are missing. */
  function Attempt(o: SpawnOutcome): seq<Fate> {
    match o
    case NotInstalled => []
    case SpawnError => [Tried]
    case Spawned(p) => [Born(p)]
  }

  /** A health check finds the CA up, is due, and its outcome exhausts the CA's credit. */
  predicate FindsCaUnhealthy(c: Config, s: State, e: Event)
    requires e.action.HealthCheck?
  {
    && e.at >= s.lastHealth + c.healthInterval * SECOND
    && s.ca.stage in {Up, Ready}
    && match e.action.outcome
       case Refused => s.counters.failures + 1 >= c.failThreshold
       case TimedOut => s.counters.timeouts + 1 >= 10
       case _ => false
  }

  /** What the step does to manager `w`. */
  function Fates(c: Config, s: State, e: Event, w: Which): seq<Fate> {
    match e.action
    case Exits(_) => []
    case Reap(p, o) =>
      if s.Of(w).pid != Some(p) then []
      else [Perished] + if w.Ca? && s.ca.crashes + 1 < 5 then Attempt(o) else []
    case Handle(StartAll(o)) => if w.Vm? then Attempt(o) else []
    case Handle(StartVm(o)) => if w.Vm? then Attempt(o) else []
    case Handle(StartCa(o)) => if w.Ca? then Attempt(o) else []
    case Handle(StopAll) => [Stopped]
    case Handle(StopVm) => if w.Vm? then [Stopped] else []
    case Handle(StopCa) => if w.Ca? then [Stopped] else []
    case Handle(Inert) => []
    case Advance(o, answer) =>
      if w.Vm? then
        if s.phase.VmStarting? then Attempt(o)
        else if s.phase.WaitingVsock? && s.phase.delayDone && e.at <= s.phase.deadline && answer then [Readied(e.until)]
        else []
      else
        if s.phase.CaStarting? then Attempt(o)
        else if s.phase.WaitingCaPort? && answer then [Readied(e.until)]
        else []
    case HealthCheck(_, o) => if w.Ca? && FindsCaUnhealthy(c, s, e) then [Stopped] + Attempt(o) else []
    case ResetCounts =>
      var m := s.Of(w);
      if m.readySince.Some? && m.readySince.value + 60 * SECOND <= ResetReading(e, w) then [Forgiven] else []
    case Shutdown => [Stopped]
  }

  function Life(r: Run, h: seq<Event>, w: Which): seq<Fate> {
    if h == [] then []
    else Life(r, h[..|h| - 1], w) + Fates(r.config, After(r, h[..|h| - 1]), h[|h| - 1], w)
  }

  // ---------------------------------------------------------------- the two agree

  /** What one more fate makes of a manager. */
  function Undergo(m: Status, f: Fate): Status {
    match f
    case Tried => m.(stage := Starting)
    case Born(p) => m.(stage := Up, pid := Some(p))
    case Readied(t) => m.(stage := Ready, readySince := Some(t))
    case Stopped => Status(Idle, None, m.crashes, None)
    case Perished => Status(if m.crashes + 1 >= 5 then Error else Idle, None, m.crashes + 1, None)
    case Forgiven => m.(crashes := 0)
  }

  lemma FateTold(m: Status, f: Fate, life: seq<Fate>)
    requires Told(m, life)
    ensures Told(Undergo(m, f), life + [f])
  {
    assert LastOf(life + [f]) == f && Before(life + [f]) == life;
  }

  lemma VmUndergoes(c: Config, s: State, e: Event)
    requires Sound(s) && Enabled(s, e)
    ensures var fates := Fates(c, s, e, Vm);
            && |fates| <= 1
            && Step(c, s, e).vm == if fates == [] then s.vm else Undergo(s.vm, fates[0])
  {}

  lemma CaUndergoes(c: Config, s: State, e: Event)
    requires Sound(s) && Enabled(s, e)
    ensures var fates := Fates(c, s, e, Ca);
            && |fates| <= 2
            && Step(c, s, e).ca ==
               if fates == [] then s.ca
               else if |fates| == 1 then Undergo(s.ca, fates[0])
               else Undergo(Undergo(s.ca, fates[0]), fates[1])
  {}

  lemma StepTold(c: Config, s: State, e: Event, w: Which, life: seq<Fate>)
    requires Sound(s) && Enabled(s, e) && Told(s.Of(w), life)
    ensures Told(Step(c, s, e).Of(w), life + Fates(c, s, e, w))
  {
    hide Step, Fates, Undergo, Told, Sound, Enabled;
    var m, fates := s.Of(w), Fates(c, s, e, w);
    VmUndergoes(c, s, e);
    CaUndergoes(c, s, e);
    if fates == [] {
      assert life + fates == life;
    } else {
      FateTold(m, fates[0], life);
      if |fates| == 1 {
        assert fates == [fates[0]];
      } else {
        FateTold(Undergo(m, fates[0]), fates[1], life + [fates[0]]);
        assert life + fates == life + [fates[0]] + [fates[1]];
      }
    }
  }

  /**
   After every legal history each manager is exactly what its life tells: its stage, its child, its
   crash count and its ready stamp.
   */
  lemma {:induction false} ManagersAreTheirLives(r: Run, h: seq<Event>, w: Which)
    requires Legal(r, h)
    ensures Told(After(r, h).Of(w), Life(r, h, w))
  {
    if h != [] {
      hide Step, Enabled, Sound, Told, Fates;
      var front := h[..|h| - 1];
      ManagersAreTheirLives(r, front, w);
      ReachableSound(r, front);
      StepTold(r.config, After(r, front), h[|h| - 1], w, Life(r, front, w));
    } else {
      assert Told(NEW_MANAGER, []);
    }
  }
}
