/**
 Lifetimes of children: when a child can escape the daemon's books, and how often the VM is
 started.
 */
module Lifetimes {
  import opened Managers
  import opened Protocol
  import opened Ownership
  import opened Startup
  import opened Recovery
  import opened Loops

  // ---------------------------------------------------------------- no orphans

  /** Every uncollected child is tracked by a manager or was handed to `graceful_kill`. */
  predicate Accounted(s: State) { s.procs.Unreaped() <= Tracked(s) + s.procs.condemned }

  /** The step spawns a child for a manager that still tracks another one. */
  predicate Overwrites(s: State, e: Event) {
    match e.action
    case Handle(StartAll(o)) => o.Spawned? && s.vm.pid.Some?
    case Handle(StartVm(o)) => o.Spawned? && s.vm.pid.Some?
    case Handle(StartCa(o)) => o.Spawned? && s.ca.pid.Some?
    case Advance(o, _) =>
      o.Spawned? && ((s.phase.VmStarting? && s.vm.pid.Some?) || (s.phase.CaStarting? && s.ca.pid.Some?))
    case _ => false
  }

  /** A step loses a child exactly when it spawns over a tracked one. */
  lemma LosesAChildExactlyWhenOverwriting(c: Config, s: State, e: Event)
    requires Sound(s) && Accounted(s) && Enabled(s, e)
    ensures Accounted(Step(c, s, e)) <==> !Overwrites(s, e)
  {
    if Overwrites(s, e) {
      var m := if AsksForCa(e) || (e.action.Advance? && s.phase.CaStarting?) then s.ca else s.vm;
      assert m.pid.value in Step(c, s, e).procs.Unreaped();
    }
  }

  predicate AlwaysAccounted(r: Run, h: seq<Event>) { forall i :: 0 <= i <= |h| ==> Accounted(After(r, h[..i])) }

  predicate NeverOverwrites(r: Run, h: seq<Event>) {
    forall k :: 0 <= k < |h| ==> !Overwrites(After(r, h[..k]), h[k])
  }

  /**
   No orphans, exactly: a run accounts for all its children at all times if and only if no step of
   it spawns over a tracked child.  Start commands are welcome as long as they respect that.
   */
  lemma {:induction false} AccountedIffNeverOverwriting(r: Run, h: seq<Event>)
    requires Legal(r, h)
    ensures AlwaysAccounted(r, h) <==> NeverOverwrites(r, h)
  {
    assert h[..|h|] == h;
    if h == [] {
      assert Accounted(After(r, h));
    } else {
      hide Step, Accounted, Overwrites;
      var front, n := h[..|h| - 1], |h| - 1;
      AccountedIffNeverOverwriting(r, front);
      ReachableSound(r, front);
      AlwaysExtends(r, h);
      if Accounted(After(r, front)) {
        LosesAChildExactlyWhenOverwriting(r.config, After(r, front), h[n]);
      }
    }
  }

  lemma AlwaysExtends(r: Run, h: seq<Event>)
    requires h != []
    ensures var front := h[..|h| - 1];
            && (AlwaysAccounted(r, h) <==> AlwaysAccounted(r, front) && Accounted(After(r, h)))
            && (NeverOverwrites(r, h) <==> NeverOverwrites(r, front) && !Overwrites(After(r, front), h[|h| - 1]))
            && (AlwaysAccounted(r, front) ==> Accounted(After(r, front)))
  {
    hide After, Accounted, Overwrites;
    var front := h[..|h| - 1];
    assert h[..|h|] == h && front[..|front|] == front;
    forall i | 0 <= i <= |front|
      ensures front[..i] == h[..i]
    {}
    if AlwaysAccounted(r, h) {
      forall i | 0 <= i <= |front|
        ensures Accounted(After(r, front[..i]))
      {
        assert Accounted(After(r, h[..i]));
      }
    }
    if AlwaysAccounted(r, front) && Accounted(After(r, h)) {
      forall i | 0 <= i <= |h|
        ensures Accounted(After(r, h[..i]))
      {
        if i <= |front| {
          assert Accounted(After(r, front[..i]));
        }
      }
    }
    if NeverOverwrites(r, h) {
      forall k | 0 <= k < |front|
        ensures !Overwrites(After(r, front[..k]), front[k])
      {
        assert !Overwrites(After(r, h[..k]), h[k]);
      }
    }
    if NeverOverwrites(r, front) && !Overwrites(After(r, front), h[|h| - 1]) {
      forall k | 0 <= k < |h|
        ensures !Overwrites(After(r, h[..k]), h[k])
      {
        if k < |front| {
          assert !Overwrites(After(r, front[..k]), front[k]);
        }
      }
    }
  }

  predicate AsksForStart(e: Event) { AsksForCa(e) || AsksForVm(e) }

  /** A manager startup is about to start has not been started by anyone else. */
  predicate Tidy(s: State) {
    && Accounted(s)
    && (s.phase.VmStarting? ==> s.vm.pid.None?)
    && (s.phase.VmStarting? || s.phase.WaitingVsock? || s.phase.CaStarting? ==> s.ca == NEW_MANAGER)
  }

  lemma TidyStep(c: Config, s: State, e: Event)
    requires Sound(s) && Tidy(s) && Enabled(s, e) && !AsksForStart(e)
    ensures Tidy(Step(c, s, e)) && !Overwrites(s, e)
  {
    LosesAChildExactlyWhenOverwriting(c, s, e);
  }

  /**
   No orphans: in a run without start commands no step ever spawns over a tracked child, and every
   spawned child is tracked, collected or has been handed to `graceful_kill`.
   */
  lemma {:induction false} NoOrphans(r: Run, h: seq<Event>)
    requires Legal(r, h)
    requires forall k :: 0 <= k < |h| ==> !AsksForStart(h[k])
    ensures Tidy(After(r, h)) && NeverOverwrites(r, h)
  {
    if h != [] {
      hide Step, Tidy, Overwrites, AsksForStart, Accounted, NeverOverwrites;
      var front := h[..|h| - 1];
      assert forall k :: 0 <= k < |front| ==> front[k] == h[k];
      NoOrphans(r, front);
      ReachableSound(r, front);
      TidyStep(r.config, After(r, front), h[|h| - 1]);
      AlwaysExtends(r, h);
    } else {
      assert Accounted(After(r, h));
    }
  }

  /** After shutdown no manager tracks anything, whatever the run did before. */
  lemma {:induction false} ShutdownTracksNothing(r: Run, h: seq<Event>)
    requires Legal(r, h) && !After(r, h).serving
    ensures Tracked(After(r, h)) == {}
  {
    var front, e := h[..|h| - 1], h[|h| - 1];
    if !After(r, front).serving {
      ShutdownTracksNothing(r, front);
    }
  }

  /** So after a run that never spawned over a child every remaining child has been told to terminate. */
  lemma ShutdownLeavesOnlyCondemned(r: Run, h: seq<Event>)
    requires Legal(r, h) && !After(r, h).serving && NeverOverwrites(r, h)
    ensures After(r, h).procs.Unreaped() <= After(r, h).procs.condemned
  {
    hide Step, NeverOverwrites;
    AccountedIffNeverOverwriting(r, h);
    assert h[..|h|] == h;
    assert Accounted(After(r, h[..|h|]));
    ShutdownTracksNothing(r, h);
  }

  // ---------------------------------------------------------------- a CA that was given up

  /** Startup is over and the CA is down, given up or stopped. */
  predicate CaIsDown(s: State) { s.phase.Terminal() && s.ca.Halted() }

  lemma DownStep(c: Config, s: State, e: Event)
    requires Sound(s) && Enabled(s, e) && CaIsDown(s) && !AsksForCa(e)
    ensures CaIsDown(Step(c, s, e)) && Step(c, s, e).ca.pid.None?
  {}

  /**
   A CA that is down when startup is over, because it crashed five times or was stopped, stays
   down: without `start_ca` neither a death, a health check nor startup ever spawns it again.
   */
  lemma {:induction false} DownCaStaysDown(r: Run, h: seq<Event>, i: nat)
    requires Legal(r, h) && i <= |h| && CaIsDown(After(r, h[..i]))
    requires forall k :: i <= k < |h| ==> !AsksForCa(h[k])
    ensures CaIsDown(After(r, h)) && Tally(r, h, Spawns(Ca)) == Tally(r, h[..i], Spawns(Ca))
  {
    if i == |h| {
      assert h[..i] == h;
    } else {
      hide Step, CaIsDown;
      var front := h[..|h| - 1];
      assert front[..i] == h[..i];
      assert forall k :: i <= k < |front| ==> front[k] == h[k];
      DownCaStaysDown(r, front, i);
      ReachableSound(r, front);
      DownStep(r.config, After(r, front), h[|h| - 1]);
    }
  }

  // ---------------------------------------------------------------- the VM is started once

  lemma VmLifeStep(c: Config, s: State, e: Event)
    requires Sound(s) && Enabled(s, e) && !AsksForVm(e)
    requires s.phase.VmStarting? || s.phase.NotStarted? ==> s.vm.pid.None?
    ensures var s' := Step(c, s, e);
            && (s'.phase.VmStarting? || s'.phase.NotStarted? ==> s'.vm.pid.None?)
            && (Gains(s, s', Vm) ==> s.phase.VmStarting? && s'.phase.WaitingVsock? && s.vm.pid.None?)
            && (Died(s, e, Vm) ==> s'.vm.pid.None? && s.vm.pid.Some?)
            && (s'.vm.pid.Some? && s.vm.pid.None? ==> Gains(s, s', Vm))
            && (s'.vm.stage.Error? && !s.vm.stage.Error? ==> s'.vm.crashes >= MAX_CRASHES)
  {}

  /**
   Without `start_vm` and `start_all` the VM is spawned at most once and never brought back: the
   documented restart of a crashed VM does not happen, and the VM never reaches its error state.
   */
  lemma {:induction false} VmSpawnedAtMostOnce(r: Run, h: seq<Event>)
    requires Legal(r, h)
    requires forall k :: 0 <= k < |h| ==> !AsksForVm(h[k])
    ensures Tally(r, h, Spawns(Vm)) <= if After(r, h).phase.VmStarting? || After(r, h).phase.NotStarted? then 0 else 1
    ensures Tally(r, h, Dies(Vm)) + (if After(r, h).vm.pid.Some? then 1 else 0) <= Tally(r, h, Spawns(Vm))
    ensures After(r, h).vm.crashes <= 1 && !After(r, h).vm.stage.Error?
  {
    CrashesCountDeaths(r, h, Vm);
    if h != [] {
      hide Step;
      var front, e := h[..|h| - 1], h[|h| - 1];
      assert forall k :: 0 <= k < |front| ==> front[k] == h[k];
      VmSpawnedAtMostOnce(r, front);
      ReachableSound(r, front);
      PhaseStep(r.config, After(r, front), e);
      VmLifeStep(r.config, After(r, front), e);
    }
  }

  /** The step starts a VM: startup does so once, otherwise a client asks for it. */
  predicate StartsVm(s: State, e: Event) {
    match e.action
    case Advance(o, _) => s.phase.VmStarting? && o.Spawned?
    case Handle(StartAll(o)) => o.Spawned?
    case Handle(StartVm(o)) => o.Spawned?
    case _ => false
  }

  lemma VmSpawnStep(c: Config, s: State, e: Event)
    requires Sound(s) && Enabled(s, e)
    ensures Gains(s, Step(c, s, e), Vm) <==> StartsVm(s, e)
  {}

  /** Exactly these steps spawn a VM: no death, health check or later phase of startup does. */
  lemma VmSpawnsExactly(r: Run, h: seq<Event>, e: Event)
    requires Legal(r, h + [e])
    ensures Gains(After(r, h), After(r, h + [e]), Vm) <==> StartsVm(After(r, h), e)
  {
    hide Step, StartsVm;
    Extend(r, h, e);
    ReachableSound(r, h);
    VmSpawnStep(r.config, After(r, h), e);
  }

  predicate VmIsDown(s: State) { !s.phase.VmStarting? && s.vm.pid.None? }

  lemma VmDownStep(c: Config, s: State, e: Event)
    requires Sound(s) && Enabled(s, e) && VmIsDown(s) && !AsksForVm(e)
    ensures VmIsDown(Step(c, s, e))
  {}

  /** A VM that is down once startup has passed its first phase stays down until a client starts it. */
  lemma {:induction false} DownVmStaysDown(r: Run, h: seq<Event>, i: nat)
    requires Legal(r, h) && i <= |h| && VmIsDown(After(r, h[..i]))
    requires forall k :: i <= k < |h| ==> !AsksForVm(h[k])
    ensures VmIsDown(After(r, h)) && Tally(r, h, Spawns(Vm)) == Tally(r, h[..i], Spawns(Vm))
  {
    if i == |h| {
      assert h[..i] == h;
    } else {
      hide Step;
      var front := h[..|h| - 1];
      assert front[..i] == h[..i];
      assert forall k :: i <= k < |front| ==> front[k] == h[k];
      DownVmStaysDown(r, front, i);
      ReachableSound(r, front);
      VmDownStep(r.config, After(r, front), h[|h| - 1]);
    }
  }

  lemma DyingVmIsDown(c: Config, s: State, e: Event)
    requires Sound(s) && Died(s, e, Vm) && !s.phase.VmStarting?
    ensures VmIsDown(Step(c, s, e))
  {}

  /**
   A VM that dies, whoever started it, is not restarted: after its death at step `d` no step spawns
   a VM until a client asks for one.
   */
  lemma DeadVmStaysDead(r: Run, h: seq<Event>, d: nat)
    requires Legal(r, h) && d < |h| && Died(After(r, h[..d]), h[d], Vm)
    requires !After(r, h[..d]).phase.VmStarting?
    requires forall k :: d < k < |h| ==> !AsksForVm(h[k])
    ensures After(r, h).vm.pid.None? && Tally(r, h, Spawns(Vm)) == Tally(r, h[..d + 1], Spawns(Vm))
  {
    hide Step;
    PrefixLegal(r, h, d);
    assert h[..d + 1] == h[..d] + [h[d]];
    Extend(r, h[..d], h[d]);
    ReachableSound(r, h[..d]);
    DyingVmIsDown(r.config, After(r, h[..d]), h[d]);
    DownVmStaysDown(r, h, d + 1);
  }

  /** In the order of the main loop that holds of every death of a VM. */
  lemma LoopNeverRestartsVm(r: Run, ts: seq<Turn>, d: nat)
    requires LoopRun(r, ts) && d < |Flatten(ts)|
    requires Died(After(r, Flatten(ts)[..d]), Flatten(ts)[d], Vm)
    requires forall k :: d < k < |Flatten(ts)| ==> !AsksForVm(Flatten(ts)[k])
    ensures After(r, Flatten(ts)).vm.pid.None?
    ensures Tally(r, Flatten(ts), Spawns(Vm)) == Tally(r, Flatten(ts)[..d + 1], Spawns(Vm))
  {
    hide Step, After, Tally, Flatten, Legal;
    NoReapWhileVmStarting(r, ts, d);
    DeadVmStaysDead(r, Flatten(ts), d);
  }
}
