/**
 Who owns which child.  In every reachable state a tracked pid is an uncollected child, the two
 managers never share one, and a child that was deliberately stopped is tracked by nobody.
 */
module Ownership {
  import opened Basics
  import opened Processes
  import opened Managers
  import opened Protocol
  import Health

  function Tracked(s: State): set<Pid> {
    (if s.vm.pid.Some? then {s.vm.pid.value} else {}) + (if s.ca.pid.Some? then {s.ca.pid.value} else {})
  }

  predicate Owned(s: State) {
    && s.procs.running !! s.procs.zombies
    && Tracked(s) <= s.procs.Unreaped()
    && (s.vm.pid.Some? ==> s.vm.pid != s.ca.pid)
    && s.procs.condemned <= s.procs.Unreaped()
    && s.procs.condemned !! Tracked(s)
  }

  /** An idle or failed manager holds no pid. */
  predicate Quiet(s: State) {
    && (s.vm.Halted() ==> s.vm.pid.None?)
    && (s.ca.Halted() ==> s.ca.pid.None?)
  }

  predicate Sound(s: State) { Owned(s) && Quiet(s) }

  lemma StartKeepsSound(s: State, w: Which, o: SpawnOutcome)
    requires Sound(s) && s.procs.Allows(o)
    ensures Sound(s.Start(w, o))
  {}

  lemma StopKeepsSound(s: State, w: Which)
    requires Sound(s)
    ensures Sound(s.Stop(w)) && s.Stop(w).procs.Unreaped() == s.procs.Unreaped()
  {}

  lemma ReapKeepsSound(s: State, p: Pid, now: Time, o: SpawnOutcome)
    requires Sound(s) && p in s.procs.zombies && s.procs.Collect(p).Allows(o)
    ensures Sound(ChildDeath(s.(procs := s.procs.Collect(p)), p, now, o))
  {
    var s1 := s.(procs := s.procs.Collect(p));
    if !s.vm.OwnsPid(p) && s.ca.OwnsPid(p) && s.ca.crashes + 1 < MAX_CRASHES {
      StartKeepsSound(s1.(ca := s.ca.MarkDead()), Ca, o);
    }
  }

  lemma DispatchKeepsSound(s: State, cmd: Command)
    requires Sound(s)
    requires cmd.StartAll? || cmd.StartVm? ==> s.procs.Allows(cmd.vmOutcome)
    requires cmd.StartCa? ==> s.procs.Allows(cmd.caOutcome)
    ensures Sound(Dispatch(s, cmd))
  {
    match cmd {
      case StartAll(o) => StartKeepsSound(s, Vm, o);
      case StopAll => StopKeepsSound(s, Ca); StopKeepsSound(s.Stop(Ca), Vm);
      case StartVm(o) => StartKeepsSound(s, Vm, o);
      case StopVm => StopKeepsSound(s, Vm);
      case StartCa(o) => StartKeepsSound(s, Ca, o);
      case StopCa => StopKeepsSound(s, Ca);
      case Inert =>
    }
  }

  lemma HealthKeepsSound(c: Config, s: State, at: Time, until: Time, out: Health.Outcome, o: SpawnOutcome)
    requires Sound(s) && s.procs.Allows(o)
    ensures Sound(CheckHealth(c, s, at, until, out, o))
  {
    if HealthDue(c, s, at) && Probed(s) {
      var s1 := s.(counters := Health.Probe(c.failThreshold, s.counters, out).0, lastHealth := until);
      StopKeepsSound(s1, Ca);
      StartKeepsSound(s1.Stop(Ca), Ca, o);
    }
  }

  lemma AdvanceKeepsSound(c: Config, s: State, at: Time, until: Time, o: SpawnOutcome, answer: bool)
    requires Sound(s) && s.procs.Allows(o)
    ensures Sound(AdvanceStartup(c, s, at, until, o, answer))
  {
    StartKeepsSound(s, Vm, o);
    StartKeepsSound(s, Ca, o);
  }

  lemma StepKeepsSound(c: Config, s: State, e: Event)
    requires Sound(s) && Enabled(s, e)
    ensures Sound(Step(c, s, e))
  {
    var s1 := s.(clock := e.until);
    match e.action {
      case Exits(ps) =>
      case Reap(p, o) => ReapKeepsSound(s1, p, e.until, o);
      case Handle(cmd) => DispatchKeepsSound(s1, cmd);
      case Advance(o, answer) => AdvanceKeepsSound(c, s1, e.at, e.until, o, answer);
      case HealthCheck(out, o) => HealthKeepsSound(c, s1, e.at, e.until, out, o);
      case ResetCounts =>
      case Shutdown => StopKeepsSound(s1, Ca); StopKeepsSound(s1.Stop(Ca), Vm);
    }
  }

  /** Pid ownership holds after every legal history, whatever children, clients and probes did. */
  lemma {:induction false} ReachableSound(r: Run, h: seq<Event>)
    requires Legal(r, h)
    ensures Sound(After(r, h))
  {
    if h != [] {
      ReachableSound(r, h[..|h| - 1]);
      StepKeepsSound(r.config, After(r, h[..|h| - 1]), h[|h| - 1]);
    }
  }

  /** `is_dead` can never be observed true, so the recovery branches of the startup machine are dead code. */
  lemma NeverDead(r: Run, h: seq<Event>, w: Which)
    requires Legal(r, h)
    ensures !After(r, h).Of(w).IsDead(After(r, h).procs)
  {
    ReachableSound(r, h);
  }

  /**
   Once a reap is handled, no manager holds the collected pid, with one exception: the kernel gave
   that very pid to the CA respawned in the same step.
   */
  lemma ReapedPidIsReleased(r: Run, h: seq<Event>, e: Event)
    requires Legal(r, h + [e]) && e.action.Reap?
    ensures e.action.pid in Tracked(After(r, h + [e])) <==>
            && After(r, h).ca.OwnsPid(e.action.pid)
            && After(r, h).ca.crashes + 1 < MAX_CRASHES
            && e.action.respawn == Spawned(e.action.pid)
    ensures !After(r, h + [e]).vm.OwnsPid(e.action.pid)
  {
    Extend(r, h, e);
    ReachableSound(r, h);
  }

  // ---------------------------------------------------------------- stops are not crashes

  /** The children a step hands to `graceful_kill`. */
  function NewlyCondemned(s: State, s': State): set<Pid> { s'.procs.condemned - s.procs.condemned }

  /**
   Between two points of a history a condemned child stays condemned until it is collected,
   whatever is spawned, stopped or reaped in between.
   */
  lemma {:induction false} CondemnedUntilCollected(r: Run, h: seq<Event>, i: nat, p: Pid)
    requires Legal(r, h) && i <= |h| && p in After(r, h[..i]).procs.condemned
    requires forall k :: i <= k < |h| && h[k].action.Reap? ==> h[k].action.pid != p
    ensures p in After(r, h).procs.condemned
  {
    if i == |h| {
      assert h[..i] == h;
    } else {
      var front := h[..|h| - 1];
      assert front[..i] == h[..i];
      assert forall k :: i <= k < |front| ==> front[k] == h[k];
      CondemnedUntilCollected(r, front, i, p);
      CondemnedStep(r.config, After(r, front), h[|h| - 1], p);
    }
  }

  lemma CondemnedStep(c: Config, s: State, e: Event, p: Pid)
    requires p in s.procs.condemned
    requires e.action.Reap? ==> e.action.pid != p
    ensures p in Step(c, s, e).procs.condemned
  {}

  /**
   A deliberate stop is never later counted as a crash: when a child that some earlier step
   condemned is finally collected, neither manager changes at all.
   */
  lemma StopIsNeverACrash(r: Run, h: seq<Event>, i: nat, e: Event)
    requires Legal(r, h + [e]) && e.action.Reap? && i <= |h|
    requires e.action.pid in After(r, h[..i]).procs.condemned
    requires forall k :: i <= k < |h| && h[k].action.Reap? ==> h[k].action.pid != e.action.pid
    ensures After(r, h + [e]).vm == After(r, h).vm
    ensures After(r, h + [e]).ca == After(r, h).ca
    ensures After(r, h + [e]).procs.running == After(r, h).procs.running
  {
    Extend(r, h, e);
    ReachableSound(r, h);
    CondemnedUntilCollected(r, h, i, e.action.pid);
  }

  // ---------------------------------------------------------------- the reap loop

  /** Bound on the collections one `reap_children` call can still make. */
  function ReapBound(s: State): nat { |s.procs.Unreaped()| + Monus(MAX_CRASHES, s.ca.crashes) }

  lemma CollectAndFork(procs: Procs, p: Pid, o: SpawnOutcome)
    requires procs.running !! procs.zombies && p in procs.zombies
    ensures |procs.Collect(p).Unreaped()| == |procs.Unreaped()| - 1
    ensures |procs.Collect(p).Fork(o).Unreaped()| <= |procs.Unreaped()|
  {
    var rest := procs.Unreaped() - {p};
    assert procs.Collect(p).Unreaped() == rest;
    if o.Spawned? {
      assert procs.Collect(p).Fork(o).Unreaped() == rest + {o.pid};
    }
  }

  lemma ReapEffect(c: Config, s: State, e: Event)
    requires Sound(s) && Enabled(s, e) && e.action.Reap?
    ensures var s', after := Step(c, s, e), s.procs.Collect(e.action.pid);
            || (s'.procs == after && s.ca.crashes <= s'.ca.crashes)
            || (s'.procs == after.Fork(e.action.respawn) && s.ca.crashes + 1 == s'.ca.crashes < MAX_CRASHES)
  {}

  /** Collecting a child strictly lowers the bound, even if a CA is respawned in its place. */
  lemma ReapProgress(c: Config, s: State, e: Event)
    requires Sound(s) && Enabled(s, e) && e.action.Reap?
    ensures ReapBound(Step(c, s, e)) < ReapBound(s)
  {
    hide Step;
    ReapEffect(c, s, e);
    CollectAndFork(s.procs, e.action.pid, e.action.respawn);
  }

  /** Children exiting mid-loop do not raise the bound. */
  lemma ExitKeepsBound(c: Config, s: State, e: Event)
    requires Enabled(s, e) && e.action.Exits?
    ensures ReapBound(Step(c, s, e)) == ReapBound(s)
  {
    assert Step(c, s, e).procs.Unreaped() == s.procs.Unreaped();
  }

  function Replay(c: Config, s: State, es: seq<Event>): State
    decreases es
  {
    if es == [] then s else Replay(c, Step(c, s, es[0]), es[1..])
  }

  /** A stretch of the reap loop: collections interleaved with exits of any children. */
  predicate Reaping(c: Config, s: State, es: seq<Event>)
    decreases es
  {
    es == [] ||
    (Enabled(s, es[0]) && (es[0].action.Reap? || es[0].action.Exits?) && Reaping(c, Step(c, s, es[0]), es[1..]))
  }

  function Collections(es: seq<Event>): nat {
    if es == [] then 0 else (if es[0].action.Reap? then 1 else 0) + Collections(es[1..])
  }

  /** Respawns: steps that leave a child running that was not running before. */
  function Respawns(c: Config, s: State, es: seq<Event>): nat
    decreases es
  {
    if es == [] then 0 else
    (if Step(c, s, es[0]).procs.running <= s.procs.running then 0 else 1) + Respawns(c, Step(c, s, es[0]), es[1..])
  }

  lemma RespawnCostsACrash(c: Config, s: State, e: Event)
    requires Sound(s) && Enabled(s, e) && (e.action.Reap? || e.action.Exits?)
    ensures (if Step(c, s, e).procs.running <= s.procs.running then 0 else 1)
            + Monus(MAX_CRASHES - 1, Step(c, s, e).ca.crashes) <= Monus(MAX_CRASHES - 1, s.ca.crashes)
  {}

  /**
   The reap loop ends: however the environment kills children while it runs, it collects at most
   the initial bound and respawns at most four CAs (fewer if crashes are already on the count).
   */
  lemma {:induction false} ReapLoopIsBounded(c: Config, s: State, es: seq<Event>)
    requires Sound(s) && Reaping(c, s, es)
    ensures Collections(es) + ReapBound(Replay(c, s, es)) <= ReapBound(s)
    ensures Respawns(c, s, es) <= Monus(MAX_CRASHES - 1, s.ca.crashes)
    decreases es
  {
    if es != [] {
      var s1 := Step(c, s, es[0]);
      StepKeepsSound(c, s, es[0]);
      RespawnCostsACrash(c, s, es[0]);
      ReapLoopIsBounded(c, s1, es[1..]);
      if es[0].action.Reap? {
        ReapProgress(c, s, es[0]);
      } else {
        ExitKeepsBound(c, s, es[0]);
      }
    }
  }
}
