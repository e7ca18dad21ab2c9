/**
 When startup starts the CA.  The reply to `start_all` promises that it will; here is the exact
 condition under which it still can, for every run, and with it the exact worth of that promise.
 */
module CaStart {
  import opened Basics
  import opened Processes
  import opened Protocol
  import opened Ownership
  import opened Startup
  import opened Recovery
  import opened Loops
  import opened Witnesses

  /** A step in which the startup machine spawns the CA. */
  predicate StartupSpawnsCa(s: State, e: Event) {
    e.action.Advance? && s.phase.CaStarting? && e.action.spawn.Spawned?
  }

  /** Among the steps `es` after history `h` is one in which the startup machine spawns the CA. */
  predicate SpawnsCaIn(r: Run, h: seq<Event>, es: seq<Event>) {
    exists k :: 0 <= k < |es| && StartupSpawnsCa(After(r, h + es[..k]), es[k])
  }

  /** Some continuation of the history, of any kind, has startup spawn the CA. */
  ghost predicate MayStartCa(r: Run, h: seq<Event>) { exists es :: Legal(r, h + es) && SpawnsCaIn(r, h, es) }

  /** After history `h` the loop can take the turns `ts`. */
  predicate GoesOn(r: Run, h: seq<Event>, ts: seq<Turn>) { TakesTurns(r, h, ts) && Legal(r, h + Flatten(ts)) }

  /** No collections and no requests, so the first turn may as well complete one already under way. */
  predicate Undisturbed(ts: seq<Turn>) { forall i :: 0 <= i < |ts| ==> ts[i].reaps == [] && ts[i].requests == [] }

  /** Some undisturbed turns of the main loop have startup spawn the CA. */
  ghost predicate LoopMayStartCa(r: Run, h: seq<Event>) {
    exists ts :: Undisturbed(ts) && GoesOn(r, h, ts) && SpawnsCaIn(r, h, Flatten(ts))
  }

  /**
   The VM is still to be started and the vsock deadline, whose sum may wrap, leaves room for the
   probe delay; or vsock can still be probed before the deadline; or the CA is next.
   */
  predicate CanStillStartCa(c: Config, s: State) {
    && s.serving
    && match s.phase
       case VmStarting => c.probeDelay <= (c.probeDelay + c.bootTimeout) % U64_RANGE
       case WaitingVsock(deadline, bootStart, delayDone) =>
         s.clock <= deadline && (delayDone || bootStart + c.probeDelay * SECOND <= deadline)
       case CaStarting => true
       case _ => false
  }

  // ---------------------------------------------------------------- too late is too late

  lemma TooLateStep(c: Config, s: State, e: Event)
    requires Sound(s) && Enabled(s, e) && !CanStillStartCa(c, s)
    ensures !CanStillStartCa(c, Step(c, s, e)) && !StartupSpawnsCa(s, e)
  {
    if s.phase.VmStarting? && e.action.Advance? {
      var wait := (c.probeDelay + c.bootTimeout) % U64_RANGE;
      assert wait < c.probeDelay && s.serving ==> wait * SECOND < c.probeDelay * SECOND;
    }
  }

  lemma NoSpawnExtends(r: Run, h: seq<Event>, es: seq<Event>, e: Event)
    requires !SpawnsCaIn(r, h, es) && !StartupSpawnsCa(After(r, h + es), e)
    ensures !SpawnsCaIn(r, h, es + [e])
  {
    hide After, StartupSpawnsCa;
    forall k | 0 <= k <= |es|
      ensures !StartupSpawnsCa(After(r, h + (es + [e])[..k]), (es + [e])[k])
    {
      assert (es + [e])[..k] == es[..k];
    }
    assert (es + [e])[..|es|] == es;
  }

  lemma {:induction false} TooLateStaysTooLate(r: Run, h: seq<Event>, es: seq<Event>)
    requires Legal(r, h + es) && !CanStillStartCa(r.config, After(r, h))
    ensures !CanStillStartCa(r.config, After(r, h + es)) && !SpawnsCaIn(r, h, es)
  {
    if es == [] {
      assert h + es == h;
    } else {
      hide *;
      var front, e := es[..|es| - 1], es[|es| - 1];
      assert h + es == h + front + [e] && es == front + [e];
      Extend(r, h + front, e);
      TooLateStaysTooLate(r, h, front);
      ReachableSound(r, h + front);
      TooLateStep(r.config, After(r, h + front), e);
      NoSpawnExtends(r, h, front, e);
    }
  }

  // ---------------------------------------------------------------- in time is in time

  /** How many startup steps are still needed until the one that spawns the CA. */
  function StepsToCa(p: Phase): nat {
    match p
    case VmStarting => 3
    case WaitingVsock(_, _, delayDone) => if delayDone then 1 else 2
    case _ => 0
  }

  /** When the next startup step is taken, so as not to come too early for it. */
  function NextTime(c: Config, s: State): (t: Time)
    ensures s.clock <= t
  {
    if s.phase.WaitingVsock? && !s.phase.delayDone then Max(s.clock, s.phase.bootStart + c.probeDelay * SECOND)
    else s.clock
  }

  lemma OneStepNearer(c: Config, s: State, p: Pid, s': State)
    requires Sound(s) && CanStillStartCa(c, s) && !s.phase.CaStarting?
    requires Tended(c, s, NextTime(c, s), Spawned(p), true, s')
    ensures CanStillStartCa(c, s') && StepsToCa(s'.phase) < StepsToCa(s.phase)
  {
    if s.phase.VmStarting? {
      var wait := (c.probeDelay + c.bootTimeout) % U64_RANGE;
      assert c.probeDelay * SECOND <= wait * SECOND;
    }
  }

  /** The loop goes on with a turn that answers every probe and spawns what is due. */
  lemma AddWillingTurn(r: Run, h: seq<Event>, ts: seq<Turn>) returns (p: Pid, turn: Turn)
    requires GoesOn(r, h, ts) && After(r, h + Flatten(ts)).serving
    ensures var s := After(r, h + Flatten(ts));
            && turn == TurnAt(NextTime(r.config, s), [], Spawned(p), true) && GoesOn(r, h, ts + [turn])
            && Tended(r.config, s, NextTime(r.config, s), Spawned(p), true, After(r, h + Flatten(ts + [turn])))
  {
    hide Step, After, Legal, Tended, Flatten, TakesTurns, NextTime;
    var h1 := h + Flatten(ts);
    var s := After(r, h1);
    p := FreshPid(s.procs.Unreaped());
    turn := TurnAt(NextTime(r.config, s), [], Spawned(p), true);
    Tend(r, h1, NextTime(r.config, s), Spawned(p), true);
    LoopsExtend(r, h, ts, turn);
    assert h1 + [turn.advance] + [turn.check] + [turn.reset] == h + (Flatten(ts) + turn.Events());
  }

  lemma {:induction false} InTimeStartsCa(r: Run, h: seq<Event>, ts: seq<Turn>)
    requires Undisturbed(ts) && GoesOn(r, h, ts) && CanStillStartCa(r.config, After(r, h + Flatten(ts)))
    ensures LoopMayStartCa(r, h)
    decreases StepsToCa(After(r, h + Flatten(ts)).phase)
  {
    hide Step, After, Legal, Tended, Flatten, TakesTurns, NextTime, Sound;
    var s, es := After(r, h + Flatten(ts)), Flatten(ts);
    var p, turn := AddWillingTurn(r, h, ts);
    if s.phase.CaStarting? {
      var es' := Flatten(ts + [turn]);
      LoopsExtend(r, h, ts, turn);
      assert es'[..|es|] == es && es'[|es|] == turn.advance;
      assert SpawnsCaIn(r, h, es');
    } else {
      ReachableSound(r, h + es);
      OneStepNearer(r.config, s, p, After(r, h + Flatten(ts + [turn])));
      InTimeStartsCa(r, h, ts + [turn]);
    }
  }

  // ---------------------------------------------------------------- the results

  /**
   Startup can still start the CA exactly under the stated condition.  If it fails, no
   continuation does, in whatever order; if it holds, turns of the main loop do.
   */
  lemma StartupStartsCaExactly(r: Run, h: seq<Event>)
    requires Legal(r, h)
    ensures MayStartCa(r, h) <==> CanStillStartCa(r.config, After(r, h))
    ensures LoopMayStartCa(r, h) <==> CanStillStartCa(r.config, After(r, h))
  {
    hide Step, After, Legal, SpawnsCaIn, CanStillStartCa;
    if CanStillStartCa(r.config, After(r, h)) {
      assert TakesTurns(r, h, []) && h + Flatten([]) == h;
      InTimeStartsCa(r, h, []);
    } else if MayStartCa(r, h) {
      var es :| Legal(r, h + es) && SpawnsCaIn(r, h, es);
      TooLateStaysTooLate(r, h, es);
    }
  }

  lemma StartAllKeepsPhase(c: Config, s: State, e: Event)
    requires e.action.Handle? && e.action.command.StartAll?
    ensures var s' := Step(c, s, e);
            s'.phase == s.phase && s'.clock == e.until && s'.serving == s.serving
  {}

  /**
   The promise of `start_all`, that startup will start the CA, can come true exactly if startup
   could still do so without the command.  Whether the VM was spawned makes no difference.
   */
  lemma StartAllLeadsToCaExactly(r: Run, h: seq<Event>, e: Event)
    requires Legal(r, h + [e]) && e.action.Handle? && e.action.command.StartAll?
    ensures LoopMayStartCa(r, h + [e]) <==> CanStillStartCa(r.config, After(r, h).(clock := e.until))
    ensures MayStartCa(r, h + [e]) <==> LoopMayStartCa(r, h + [e])
  {
    hide Step, After, Legal, MayStartCa, LoopMayStartCa;
    Extend(r, h, e);
    StartAllKeepsPhase(r.config, After(r, h), e);
    StartupStartsCaExactly(r, h + [e]);
  }

  // ---------------------------------------------------------------- a promise broken in mid-startup

  /** A turn in which a client stops everything and starts it again; the VM gets pid 3. */
  function RestartTurn(t: Time): Turn {
    var stop, start := Event(t, Handle(StopAll), t), Event(t, Handle(StartAll(Spawned(3))), t);
    TurnAt(t, [], NotInstalled, false).(requests := [stop, start])
  }

  lemma RestartSteps(c: Config, s: State)
    requires s.serving && s.phase.WaitingCaPort? && s.clock <= s.phase.portDeadline && s.procs.Unreaped() <= {1, 2}
    ensures var turn := RestartTurn(s.clock);
            var s1 := Step(c, s, turn.requests[0]);
            var s2 := Step(c, s1, turn.requests[1]);
            && Enabled(s, turn.requests[0]) && Enabled(s1, turn.requests[1])
            && s2.serving && s2.clock == s.clock && s2.phase == s.phase
            && s2.vm.stage.Up? && s2.vm.OwnsPid(3) && 3 in s2.procs.running && s2.ca.stage.Idle? && s2.ca.pid.None?
  {}

  /** Startup waits for a CA that is down, next to a VM that runs. */
  predicate WaitsInVain(s: State) {
    s.serving && s.phase.WaitingCaPort? && s.vm.OwnsPid(3) && 3 in s.procs.running && s.ca.pid.None?
  }

  lemma RestartTended(c: Config, s: State, s': State)
    requires WaitsInVain(s) && s.vm.stage.Up? && s.clock <= s.phase.portDeadline
    requires Tended(c, s, s.clock, NotInstalled, false, s')
    ensures WaitsInVain(s')
  {}

  /**
   The promise can break while startup is under way: in some run of the main loop a client restarts
   everything while startup waits for the CA's port, the VM comes back, and startup never starts a CA.
   */
  lemma StartAllCanComeTooLate(r: Run)
    requires r.config.autoStart && r.config.probeDelay + r.config.bootTimeout < U64_RANGE
    ensures exists ts :: LoopRun(r, ts) && WaitsInVain(After(r, Flatten(ts))) && !MayStartCa(r, Flatten(ts))
  {
    hide Step, After, Legal, Tended, Flatten, TakesTurns, Enabled, Tally, SmoothBoot, MayStartCa, CaRestarted;
    var ts := SmoothBoot(r);
    SmoothBootWorks(r);
    var h0 := Flatten(ts);
    var s := After(r, h0);
    var turn := RestartTurn(s.clock);
    var e1, e2 := turn.requests[0], turn.requests[1];
    RestartSteps(r.config, s);
    Extend(r, h0, e1);
    Extend(r, h0 + [e1], e2);
    var h := h0 + [e1] + [e2];
    Tend(r, h, s.clock, NotInstalled, false);
    RestartTended(r.config, After(r, h), After(r, h + [turn.advance] + [turn.check] + [turn.reset]));
    LoopsExtend(r, [], ts, turn);
    assert h0 + turn.Events() == h + [turn.advance] + [turn.check] + [turn.reset];
    StartupStartsCaExactly(r, Flatten(ts + [turn]));
  }

  // ---------------------------------------------------------------- when the CA is due

  /** A vsock probe was answered, and no startup step has been taken since. */
  predicate JustAnswered(r: Run, h: seq<Event>, j: nat) {
    && j < |h| && VsockAnswers(r.config, After(r, h[..j]), h[j])
    && forall k :: j < k < |h| ==> !h[k].action.Advance?
  }

  lemma DueStep(c: Config, s: State, e: Event)
    requires Sound(s) && Enabled(s, e)
    ensures Step(c, s, e).phase.CaStarting? <==>
            VsockAnswers(c, s, e) || (s.phase.CaStarting? && !e.action.Advance?)
    ensures VsockAnswers(c, s, e) ==> e.action.Advance?
  {}

  /**
   The next startup step starts the CA exactly when the latest startup step was a vsock probe that
   was answered, whatever children and clients did since.
   */
  lemma {:induction false} CaIsDueExactly(r: Run, h: seq<Event>)
    requires Legal(r, h)
    ensures After(r, h).phase.CaStarting? <==> exists j: nat :: JustAnswered(r, h, j)
  {
    hide Step, VsockAnswers, Sound, Enabled;
    if h != [] {
      var front, n := h[..|h| - 1], |h| - 1;
      CaIsDueExactly(r, front);
      ReachableSound(r, front);
      DueStep(r.config, After(r, front), h[n]);
      assert forall j :: 0 <= j < n ==> front[..j] == h[..j] && front[j] == h[j];
      if After(r, h).phase.CaStarting? {
        if VsockAnswers(r.config, After(r, front), h[n]) {
          assert JustAnswered(r, h, n);
        } else {
          var j :| JustAnswered(r, front, j);
          assert JustAnswered(r, h, j);
        }
      }
      if j: nat :| JustAnswered(r, h, j) {
        if j < n {
          assert JustAnswered(r, front, j);
        }
      }
    }
  }
}
