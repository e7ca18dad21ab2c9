/**
 The startup state machine over whole runs: its phases only move forward, it settles in bounded
 time, and the CA is not started before the VM has answered on vsock.
 */
module Startup {
  import opened Basics
  import opened Managers
  import opened Protocol
  import opened Ownership

  // ---------------------------------------------------------------- phases only move forward

  /** Position of a phase on the way to its end; the three terminal phases share the last place. */
  function Rank(p: Phase): nat {
    match p
    case VmStarting => 0
    case WaitingVsock(_, _, _) => 1
    case CaStarting => 2
    case WaitingCaPort(_) => 3
    case _ => 4
  }

  lemma PhaseStep(c: Config, s: State, e: Event)
    requires Sound(s)
    ensures s.phase.Terminal() || !e.action.Advance? ==> Step(c, s, e).phase == s.phase
    ensures Rank(s.phase) <= Rank(Step(c, s, e).phase)
    ensures Rank(s.phase) == Rank(Step(c, s, e).phase) && s.phase != Step(c, s, e).phase ==>
            s.phase.WaitingVsock? && !s.phase.delayDone && Step(c, s, e).phase == s.phase.(delayDone := true)
    ensures Step(c, s, e).phase.Terminal() && !s.phase.Terminal() ==>
            Step(c, s, e).phase in {Complete, Failed(VmStart), Failed(VsockTimeout), Failed(CaStart)}
  {}

  /** A later phase never ranks lower than an earlier one, and a terminal phase never changes. */
  lemma {:induction false} PhasesAreMonotone(r: Run, h: seq<Event>, i: nat)
    requires Legal(r, h) && i <= |h|
    ensures Rank(After(r, h[..i]).phase) <= Rank(After(r, h).phase)
    ensures After(r, h[..i]).phase.Terminal() ==> After(r, h).phase == After(r, h[..i]).phase
  {
    if i == |h| {
      assert h[..i] == h;
    } else {
      var front := h[..|h| - 1];
      assert front[..i] == h[..i];
      PhasesAreMonotone(r, front, i);
      ReachableSound(r, front);
      PhaseStep(r.config, After(r, front), h[|h| - 1]);
    }
  }

  /** The step enters the phase with rank `k`. */
  function Enters(k: nat): (State, Event, State) -> bool {
    (s: State, e: Event, s': State) => RankReached(s, s', k)
  }

  predicate RankReached(s: State, s': State, k: nat) { Rank(s.phase) != k && Rank(s'.phase) == k }

  /** Each phase is entered at most once per run, and the starting phase never again. */
  lemma {:induction false} PhaseEnteredOnce(r: Run, h: seq<Event>, k: nat)
    requires Legal(r, h)
    ensures Tally(r, h, Enters(k)) <= if k == 0 || Rank(After(r, h).phase) < k then 0 else 1
  {
    if h != [] {
      var front := h[..|h| - 1];
      PhaseEnteredOnce(r, front, k);
      ReachableSound(r, front);
      PhaseStep(r.config, After(r, front), h[|h| - 1]);
    }
  }

  /** The "crashed too many times" failures of the startup machine cannot occur. */
  lemma {:induction false} CrashFailuresUnreachable(r: Run, h: seq<Event>)
    requires Legal(r, h)
    ensures After(r, h).phase != Failed(VmCrashed) && After(r, h).phase != Failed(CaCrashed)
  {
    if h != [] {
      var front := h[..|h| - 1];
      CrashFailuresUnreachable(r, front);
      ReachableSound(r, front);
      PhaseStep(r.config, After(r, front), h[|h| - 1]);
    }
  }

  // ---------------------------------------------------------------- startup settles in bounded time

  /** When the startup machine started the VM. */
  function BootTime(r: Run, h: seq<Event>): Option<Time> {
    if h == [] then None else
    var front := h[..|h| - 1];
    var earlier := BootTime(r, front);
    if earlier.Some? then earlier
    else if After(r, front).phase.VmStarting? && After(r, h).phase.WaitingVsock? then Some(h[|h| - 1].at)
    else None
  }

  /** When the startup machine reached the phase it ends in. */
  function SettledAt(r: Run, h: seq<Event>): Option<Time> {
    if h == [] then None else
    var front := h[..|h| - 1];
    var earlier := SettledAt(r, front);
    if earlier.Some? then earlier
    else if !After(r, front).phase.Terminal() && After(r, h).phase.Terminal() then Some(h[|h| - 1].until)
    else None
  }

  /** First clock reading of the latest `advance_startup` call. */
  function LastAdvance(h: seq<Event>): Option<Time> {
    if h == [] then None
    else if h[|h| - 1].action.Advance? then Some(h[|h| - 1].at)
    else LastAdvance(h[..|h| - 1])
  }

  /** Every `advance_startup` call ends at most `gap` after the previous one began. */
  predicate Paced(h: seq<Event>, gap: nat) {
    h == [] ||
    (var front, last := h[..|h| - 1], h[|h| - 1];
     && Paced(front, gap)
     && (last.action.Advance? && LastAdvance(front).Some? ==> last.until <= LastAdvance(front).value + gap))
  }

  /** All the time startup may spend waiting, apart from the gaps between calls. */
  function Patience(c: Config): nat { (c.probeDelay + c.bootTimeout + c.caTimeout) * SECOND }

  predicate OnTime(c: Config, p: Phase, boot: Option<Time>, last: Option<Time>, gap: nat) {
    match p
    case NotStarted => boot.None?
    case VmStarting => boot.None?
    case WaitingVsock(d, b, done) =>
      && boot == Some(b) && last.Some?
      && d <= b + (c.probeDelay + c.bootTimeout) * SECOND
      && last.value <= if done then b + (c.probeDelay + c.bootTimeout) * SECOND + gap else b + c.probeDelay * SECOND
    case CaStarting =>
      && boot.Some? && last.Some?
      && last.value <= boot.value + (c.probeDelay + c.bootTimeout) * SECOND
    case WaitingCaPort(d) =>
      && boot.Some? && last.Some?
      && last.value <= d <= boot.value + Patience(c) + gap
    case _ => true
  }

  lemma {:induction false} PhasesAreOnTime(r: Run, h: seq<Event>, gap: nat)
    requires Legal(r, h) && Paced(h, gap)
    ensures OnTime(r.config, After(r, h).phase, BootTime(r, h), LastAdvance(h), gap)
    ensures SettledAt(r, h).Some? ==> After(r, h).phase.Terminal()
    ensures SettledAt(r, h).Some? && BootTime(r, h).Some? ==>
            SettledAt(r, h).value <= BootTime(r, h).value + Patience(r.config) + 2 * gap
    ensures BootTime(r, h).Some? && After(r, h).phase.Terminal() ==> SettledAt(r, h).Some?
  {
    if h != [] {
      var front, last := h[..|h| - 1], h[|h| - 1];
      PhasesAreOnTime(r, front, gap);
      ReachableSound(r, front);
      PhaseStep(r.config, After(r, front), last);
    }
  }

  /**
   Bounded startup: in a run whose `advance_startup` calls are at most `gap` apart, a startup that
   booted the VM at `t` has settled by `t + delay + boot timeout + CA timeout + 2 * gap`, whatever
   the probes answered, whatever died and whatever clients asked for.
   */
  lemma StartupSettles(r: Run, h: seq<Event>, gap: nat)
    requires Legal(r, h) && Paced(h, gap) && BootTime(r, h).Some?
    ensures LastAdvance(h).Some? && LastAdvance(h).value > BootTime(r, h).value + Patience(r.config) + gap ==>
            After(r, h).phase.Complete? || After(r, h).phase.Failed?
    ensures After(r, h).phase.Terminal() ==>
            && SettledAt(r, h).Some?
            && SettledAt(r, h).value <= BootTime(r, h).value + Patience(r.config) + 2 * gap
  {
    PhasesAreOnTime(r, h, gap);
  }

  // ---------------------------------------------------------------- vsock before CA

  /** The step's result depends on the answer of the vsock probe: the probe was issued. */
  predicate ConsultsVsock(c: Config, s: State, e: Event) {
    && s.phase.WaitingVsock? && e.action.Advance?
    && Step(c, s, e.(action := e.action.(answer := true))) != Step(c, s, e.(action := e.action.(answer := false)))
  }

  predicate VsockAnswers(c: Config, s: State, e: Event) { ConsultsVsock(c, s, e) && e.action.answer }

  lemma {:induction false} DelayHasElapsed(r: Run, h: seq<Event>)
    requires Legal(r, h)
    ensures var s := After(r, h);
            s.phase.WaitingVsock? ==>
              && BootTime(r, h) == Some(s.phase.bootStart)
              && (s.phase.delayDone ==> s.clock >= s.phase.bootStart + r.config.probeDelay * SECOND)
    ensures After(r, h).phase.VmStarting? || After(r, h).phase.NotStarted? ==> BootTime(r, h).None?
  {
    if h != [] {
      var front, last := h[..|h| - 1], h[|h| - 1];
      DelayHasElapsed(r, front);
      ReachableSound(r, front);
      PhaseStep(r.config, After(r, front), last);
    }
  }

  /** No vsock probe is issued before the boot delay is over, nor after the deadline. */
  lemma VsockProbeWindow(r: Run, h: seq<Event>, e: Event)
    requires Legal(r, h + [e]) && ConsultsVsock(r.config, After(r, h), e)
    ensures BootTime(r, h).Some?
    ensures BootTime(r, h).value + r.config.probeDelay * SECOND <= e.at
    ensures e.at <= BootTime(r, h).value + (r.config.probeDelay + r.config.bootTimeout) * SECOND
  {
    Extend(r, h, e);
    DelayHasElapsed(r, h);
    ReachableSound(r, h);
    DeadlineFits(r, h);
  }

  lemma {:induction false} DeadlineFits(r: Run, h: seq<Event>)
    requires Legal(r, h)
    ensures After(r, h).phase.WaitingVsock? ==>
            After(r, h).phase.deadline == VsockDeadline(r.config, After(r, h).phase.bootStart)
  {
    if h != [] {
      DeadlineFits(r, h[..|h| - 1]);
      ReachableSound(r, h[..|h| - 1]);
      PhaseStep(r.config, After(r, h[..|h| - 1]), h[|h| - 1]);
    }
  }

  // ---------------------------------------------------------------- every move of the startup machine

  /** When the startup machine started the CA. */
  function CaTime(r: Run, h: seq<Event>): Option<Time> {
    if h == [] then None else
    var front := h[..|h| - 1];
    var earlier := CaTime(r, front);
    if earlier.Some? then earlier
    else if After(r, front).phase.CaStarting? && After(r, h).phase.WaitingCaPort? then Some(h[|h| - 1].at)
    else None
  }

  /** Step `k` is a startup step that found the boot delay over. */
  predicate FindsDelayOver(r: Run, h: seq<Event>, k: nat) {
    && k < |h| && h[k].action.Advance? && BootTime(r, h[..k]).Some?
    && h[k].at >= BootTime(r, h[..k]).value + r.config.probeDelay * SECOND
  }

  /** Some startup step since the boot has found the delay over, so that probes may begin. */
  predicate DelayOver(r: Run, h: seq<Event>) { exists k :: 0 <= k < |h| && FindsDelayOver(r, h, k) }

  /** The deadline for vsock: both waits after the boot, added as unsigned 64-bit numbers of seconds. */
  function VsockLimit(c: Config, boot: Time): Time {
    boot + (c.probeDelay + c.bootTimeout) % 0x1_0000_0000_0000_0000 * SECOND
  }

  lemma DelayOverExtends(r: Run, h: seq<Event>)
    requires h != []
    ensures DelayOver(r, h) <==> DelayOver(r, h[..|h| - 1]) || FindsDelayOver(r, h, |h| - 1)
  {
    hide After;
    var front := h[..|h| - 1];
    assert forall k :: 0 <= k < |front| ==> front[..k] == h[..k] && front[k] == h[k];
    if DelayOver(r, h) && !FindsDelayOver(r, h, |h| - 1) {
      var k :| 0 <= k < |h| && FindsDelayOver(r, h, k);
      assert FindsDelayOver(r, front, k);
    }
    if k :| 0 <= k < |front| && FindsDelayOver(r, front, k) {
      assert FindsDelayOver(r, h, k);
    }
  }

  /** What the phase remembers is what happened. */
  predicate Remembers(r: Run, h: seq<Event>, p: Phase) {
    match p
    case NotStarted => BootTime(r, h).None?
    case VmStarting => BootTime(r, h).None?
    case WaitingVsock(d, b, done) =>
      BootTime(r, h) == Some(b) && d == VsockLimit(r.config, b) && (done <==> DelayOver(r, h))
    case WaitingCaPort(d) => CaTime(r, h).Some? && d == CaTime(r, h).value + r.config.caTimeout * SECOND
    case _ => true
  }

  lemma {:induction false} PhaseRemembers(r: Run, h: seq<Event>)
    requires Legal(r, h)
    ensures Remembers(r, h, After(r, h).phase)
    ensures BootTime(r, h).None? ==> !DelayOver(r, h)
    ensures Rank(After(r, h).phase) < 3 ==> CaTime(r, h).None?
  {
    if h != [] {
      hide DelayOver;
      var front, last := h[..|h| - 1], h[|h| - 1];
      PhaseRemembers(r, front);
      ReachableSound(r, front);
      DelayOverExtends(r, h);
      PhaseStep(r.config, After(r, front), last);
    }
  }

  /** What a startup step makes of the phase, told by what happened before and what was answered. */
  predicate Proceeds(r: Run, h: seq<Event>, e: Event, p: Phase, p': Phase)
    requires e.action.Advance?
  {
    match p
    case VmStarting => if e.action.spawn.Spawned? then p'.WaitingVsock? else p' == Failed(VmStart)
    case WaitingVsock(_, _, _) =>
      && BootTime(r, h).Some?
      && if !DelayOver(r, h) then p'.WaitingVsock?
         else if e.at > VsockLimit(r.config, BootTime(r, h).value) then p' == Failed(VsockTimeout)
         else if e.action.answer then p'.CaStarting? else p'.WaitingVsock?
    case CaStarting => if e.action.spawn.Spawned? then p'.WaitingCaPort? else p' == Failed(CaStart)
    case WaitingCaPort(_) =>
      && CaTime(r, h).Some?
      && if e.action.answer || e.at > CaTime(r, h).value + r.config.caTimeout * SECOND then p'.Complete?
         else p' == p
    case _ => p' == p
  }

  /**
   Every move of the startup machine, exactly, by the times at which it started the VM and the CA.
   In particular it gives up on vsock neither before nor after its deadline, it does not give up on
   the CA's port before the CA's time is over, and then ends in `Complete`, not in a failure.
   */
  lemma StartupMovesExactly(r: Run, h: seq<Event>, e: Event)
    requires Legal(r, h + [e])
    ensures !e.action.Advance? ==> After(r, h + [e]).phase == After(r, h).phase
    ensures e.action.Advance? ==> Proceeds(r, h, e, After(r, h).phase, After(r, h + [e]).phase)
  {
    hide DelayOver;
    Extend(r, h, e);
    ReachableSound(r, h);
    PhaseRemembers(r, h);
  }

  // ---------------------------------------------------------------- CA spawns

  /** The step leaves manager `w` with a child that was not running before. */
  predicate Gains(s: State, s': State, w: Which) {
    s'.Of(w).pid.Some? && s'.Of(w).pid.value in s'.procs.running && s'.Of(w).pid.value !in s.procs.running
  }

  function Spawns(w: Which): (State, Event, State) -> bool {
    (s: State, e: Event, s': State) => Gains(s, s', w)
  }

  predicate AsksForCa(e: Event) { e.action.Handle? && e.action.command.StartCa? }

  predicate AsksForVm(e: Event) {
    e.action.Handle? && (e.action.command.StartVm? || e.action.command.StartAll?)
  }

  /** The CA has never been touched, and startup is not yet, or no longer, about to touch it. */
  predicate CaUntouched(s: State) {
    s.ca == NEW_MANAGER && (s.phase.NotStarted? || s.phase.VmStarting? || s.phase.WaitingVsock? || s.phase.Failed?)
  }

  lemma CaStaysUntouched(c: Config, s: State, e: Event)
    requires Sound(s) && Enabled(s, e) && CaUntouched(s) && !AsksForCa(e)
    ensures VsockAnswers(c, s, e) || CaUntouched(Step(c, s, e))
    ensures !Gains(s, Step(c, s, e), Ca)
  {}

  lemma {:induction false} UntouchedUntilVsock(r: Run, h: seq<Event>)
    requires Legal(r, h)
    requires forall k :: 0 <= k < |h| ==> !AsksForCa(h[k])
    requires forall k :: 0 <= k < |h| ==> !VsockAnswers(r.config, After(r, h[..k]), h[k])
    ensures CaUntouched(After(r, h))
  {
    if h != [] {
      var front, last := h[..|h| - 1], h[|h| - 1];
      assert forall k :: 0 <= k < |front| ==> front[k] == h[k] && front[..k] == h[..k];
      UntouchedUntilVsock(r, front);
      ReachableSound(r, front);
      assert !VsockAnswers(r.config, After(r, h[..|front|]), h[|front|]);
      CaStaysUntouched(r.config, After(r, front), last);
    }
  }

  /**
   In a run without `start_ca`, every CA spawn (by startup, after a death or by a health restart)
   comes after a vsock probe that was issued and answered.
   */
  lemma CaSpawnFollowsVsock(r: Run, h: seq<Event>, e: Event)
    requires Legal(r, h + [e]) && !AsksForCa(e)
    requires forall k :: 0 <= k < |h| ==> !AsksForCa(h[k])
    requires Spawns(Ca)(After(r, h), e, After(r, h + [e]))
    ensures exists i :: 0 <= i < |h| && VsockAnswers(r.config, After(r, h[..i]), h[i])
  {
    Extend(r, h, e);
    if forall i :: 0 <= i < |h| ==> !VsockAnswers(r.config, After(r, h[..i]), h[i]) {
      UntouchedUntilVsock(r, h);
      ReachableSound(r, h);
      CaStaysUntouched(r.config, After(r, h), e);
    }
  }

  /**
   The reply to `start_all` promises that startup will start the CA.  With `auto_start` off it
   never does: no number of `start_all` and `start_vm` commands brings up a CA.
   */
  lemma {:induction false} StartAllNeverStartsCa(r: Run, h: seq<Event>)
    requires Legal(r, h) && !r.config.autoStart
    requires forall k :: 0 <= k < |h| ==> !AsksForCa(h[k])
    ensures Tally(r, h, Spawns(Ca)) == 0 && CaUntouched(After(r, h)) && After(r, h).phase.NotStarted?
  {
    if h != [] {
      var front, last := h[..|h| - 1], h[|h| - 1];
      assert forall k :: 0 <= k < |front| ==> front[k] == h[k];
      StartAllNeverStartsCa(r, front);
      ReachableSound(r, front);
      PhaseStep(r.config, After(r, front), last);
      CaStaysUntouched(r.config, After(r, front), last);
    }
  }
}
