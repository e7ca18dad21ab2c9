/**
 Crash recovery over whole runs: how often the CA can be brought back after a death, and what has
 to happen before a crash count is forgiven.
 */
module Recovery {
  import opened Basics
  import opened Managers
  import opened Protocol
  import opened Ownership
  import opened Startup
  import Health

  // ---------------------------------------------------------------- observations of a step

  /** A child death after which the CA was started again instead of being given up. */
  predicate CaRestarted(s: State, e: Event, s': State) { e.action.Reap? && s'.ca != s.ca && !s'.ca.stage.Error? }

  function RestartsCa(): (State, Event, State) -> bool {
    (s: State, e: Event, s': State) => CaRestarted(s, e, s')
  }

  predicate TurnsReady(s: State, s': State, w: Which) { !s.Of(w).stage.Ready? && s'.Of(w).stage.Ready? }

  function BecomesReady(w: Which): (State, Event, State) -> bool {
    (s: State, e: Event, s': State) => TurnsReady(s, s', w)
  }

  /** The collected child was the one manager `w` tracked. */
  predicate Died(s: State, e: Event, w: Which) { e.action.Reap? && s.Of(w).OwnsPid(e.action.pid) }

  function Dies(w: Which): (State, Event, State) -> bool {
    (s: State, e: Event, s': State) => Died(s, e, w)
  }

  /** A reap that leaves a new child running is a restart of the CA. */
  lemma RespawnIsRestart(c: Config, s: State, e: Event)
    requires Sound(s) && Enabled(s, e) && e.action.Reap?
    requires !(Step(c, s, e).procs.running <= s.procs.running)
    ensures Died(s, e, Ca) && CaRestarted(s, e, Step(c, s, e))
  {}

  // ---------------------------------------------------------------- readiness

  /** Readiness is reached only along the startup path, so a CA can be ready only when startup is complete. */
  predicate ReadyOnlyAfter(s: State) {
    && (s.vm.stage.Ready? || s.vm.readySince.Some? ==> Rank(s.phase) >= 2)
    && (s.ca.stage.Ready? || s.ca.readySince.Some? ==> s.phase.Complete?)
  }

  /** Everything a step can do to manager `w`, as far as crashes and readiness are concerned. */
  predicate Moves(s: State, e: Event, s': State, w: Which) {
    var m, m' := s.Of(w), s'.Of(w);
    || m' == m
    // started or stopped
    || (!e.action.Reap? && m'.crashes == m.crashes && !m'.stage.Ready?
        && (m'.readySince == m.readySince || m'.readySince.None?))
    // died; given up at the fifth crash
    || (e.action.Reap? && m.OwnsPid(e.action.pid) && m'.crashes == m.crashes + 1
        && m'.readySince.None? && !m'.stage.Ready?
        && (m'.stage.Error? <==> m'.crashes >= MAX_CRASHES))
    // forgiven
    || (e.action.ResetCounts? && m.readySince.Some? && e.until >= m.readySince.value + STABLE && m' == m.(crashes := 0))
    // became ready
    || (e.action.Advance? && m' == m.(stage := Ready, readySince := Some(e.until))
        && (if w.Vm? then s.phase.WaitingVsock? && s'.phase.CaStarting?
            else s.phase.WaitingCaPort? && s'.phase.Complete?))
  }

  lemma VmMoves(c: Config, s: State, e: Event)
    requires Sound(s) && Enabled(s, e)
    ensures Moves(s, e, Step(c, s, e), Vm)
  {}

  lemma CaMoves(c: Config, s: State, e: Event)
    requires Sound(s) && Enabled(s, e)
    ensures Moves(s, e, Step(c, s, e), Ca)
  {}

  lemma {:induction false} ReadinessFollowsStartup(r: Run, h: seq<Event>)
    requires Legal(r, h)
    ensures ReadyOnlyAfter(After(r, h))
  {
    if h != [] {
      hide Step;
      var s, e := After(r, h[..|h| - 1]), h[|h| - 1];
      ReadinessFollowsStartup(r, h[..|h| - 1]);
      ReachableSound(r, h[..|h| - 1]);
      PhaseStep(r.config, s, e);
      VmMoves(r.config, s, e);
      CaMoves(r.config, s, e);
    }
  }

  /** Each manager becomes ready at most once per run. */
  lemma {:induction false} ReadyAtMostOnce(r: Run, h: seq<Event>, w: Which)
    requires Legal(r, h)
    ensures Tally(r, h, BecomesReady(w)) <= 1
    ensures Rank(After(r, h).phase) < (if w.Vm? then 2 else 4) ==> Tally(r, h, BecomesReady(w)) == 0
  {
    if h != [] {
      hide Step;
      var s, e := After(r, h[..|h| - 1]), h[|h| - 1];
      ReadyAtMostOnce(r, h[..|h| - 1], w);
      ReachableSound(r, h[..|h| - 1]);
      ReadinessFollowsStartup(r, h[..|h| - 1]);
      PhaseStep(r.config, s, e);
      VmMoves(r.config, s, e);
      CaMoves(r.config, s, e);
    }
  }

  /** The probe for which manager `w` waits is made and answered: vsock in its window, or the CA's port. */
  predicate ProbeAnswered(r: Run, h: seq<Event>, e: Event, w: Which) {
    && e.action.Advance? && e.action.answer
    && match w
       case Vm =>
         && After(r, h).phase.WaitingVsock? && DelayOver(r, h)
         && BootTime(r, h).Some? && e.at <= VsockLimit(r.config, BootTime(r, h).value)
       case Ca => After(r, h).phase.WaitingCaPort?
  }

  lemma VmAnswerStep(c: Config, s: State, e: Event)
    requires Sound(s) && ReadyOnlyAfter(s) && e.action.Advance?
    ensures var answered :=
              e.action.answer && s.phase.WaitingVsock? && s.phase.delayDone && e.at <= s.phase.deadline;
            && (TurnsReady(s, Step(c, s, e), Vm) <==> answered)
            && (answered ==> Step(c, s, e).vm == s.vm.(stage := Ready, readySince := Some(e.until)))
  {}

  lemma CaAnswerStep(c: Config, s: State, e: Event)
    requires Sound(s) && ReadyOnlyAfter(s) && e.action.Advance?
    ensures var answered := e.action.answer && s.phase.WaitingCaPort?;
            && (TurnsReady(s, Step(c, s, e), Ca) <==> answered)
            && (answered ==> Step(c, s, e).ca == s.ca.(stage := Ready, readySince := Some(e.until)))
  {}

  /** A manager turns ready exactly when its probe is answered, and is stamped with the end of that step. */
  lemma TurnsReadyExactly(r: Run, h: seq<Event>, e: Event, w: Which)
    requires Legal(r, h + [e])
    ensures TurnsReady(After(r, h), After(r, h + [e]), w) <==> ProbeAnswered(r, h, e, w)
    ensures ProbeAnswered(r, h, e, w) ==>
            After(r, h + [e]).Of(w) == After(r, h).Of(w).(stage := Ready, readySince := Some(e.until))
  {
    hide Step, Sound, ReadyOnlyAfter, DelayOver, After, Legal, BootTime, CaTime, Tally;
    Extend(r, h, e);
    ReachableSound(r, h);
    PhaseRemembers(r, h);
    ReadinessFollowsStartup(r, h);
    if e.action.Advance? {
      VmAnswerStep(r.config, After(r, h), e);
      CaAnswerStep(r.config, After(r, h), e);
    } else {
      VmMoves(r.config, After(r, h), e);
      CaMoves(r.config, After(r, h), e);
    }
  }

  // ---------------------------------------------------------------- the restart budget

  const RESTARTS: nat := MAX_CRASHES - 1

  /** The restarts `n` made so far are covered by the crash count and by the one readiness `k`. */
  predicate WithinBudget(s: State, n: nat, k: nat) {
    && (k == 0 ==> s.ca.readySince.None?)
    && (s.ca.readySince.Some? ==> n <= RESTARTS)
    && n <= RESTARTS * k + Min(RESTARTS, s.ca.crashes)
  }

  lemma BudgetStep(s: State, e: Event, s': State, n: nat, k: nat)
    requires Moves(s, e, s', Ca) && ReadyOnlyAfter(s) && WithinBudget(s, n, k)
    requires k == 1 ==> s.phase.Complete?
    requires k <= 1 && (s.phase.Complete? ==> s'.phase.Complete?)
    ensures var k' := k + if TurnsReady(s, s', Ca) then 1 else 0;
            && WithinBudget(s', n + (if CaRestarted(s, e, s') then 1 else 0), k')
            && (k' == 1 ==> s'.phase.Complete?)
  {}

  lemma {:induction false} BudgetKept(r: Run, h: seq<Event>)
    requires Legal(r, h)
    ensures WithinBudget(After(r, h), Tally(r, h, RestartsCa()), Tally(r, h, BecomesReady(Ca)))
    ensures Tally(r, h, BecomesReady(Ca)) == 1 ==> After(r, h).phase.Complete?
  {
    if h != [] {
      hide Step, WithinBudget, Sound, Enabled, Moves, ReadyOnlyAfter;
      var front := h[..|h| - 1];
      var s, e := After(r, front), h[|h| - 1];
      BudgetKept(r, front);
      ReachableSound(r, front);
      ReadinessFollowsStartup(r, front);
      ReadyAtMostOnce(r, front, Ca);
      PhaseStep(r.config, s, e);
      CaMoves(r.config, s, e);
      BudgetStep(s, e, After(r, h), Tally(r, front, RestartsCa()), Tally(r, front, BecomesReady(Ca)));
    }
  }

  /**
   The lifetime restart budget: in any run of any length, with any commands and any deaths, the CA
   is restarted because of a death at most eight times, and at most four times if it never became
   ready.
   */
  lemma LifetimeRestartBudget(r: Run, h: seq<Event>)
    requires Legal(r, h)
    ensures Tally(r, h, RestartsCa()) <= 8
    ensures Tally(r, h, BecomesReady(Ca)) == 0 ==> Tally(r, h, RestartsCa()) <= 4
  {
    hide Step;
    BudgetKept(r, h);
    ReadyAtMostOnce(r, h, Ca);
  }

  /** From a moment at which the CA is counted as ready, at most four restarts follow, ever. */
  lemma {:induction false} RestartsAfterReady(r: Run, h: seq<Event>, i: nat)
    requires Legal(r, h) && i <= |h| && After(r, h[..i]).ca.readySince.Some?
    ensures After(r, h).phase.Complete?
    ensures Tally(r, h, RestartsCa()) <= Tally(r, h[..i], RestartsCa()) +
            if After(r, h).ca.readySince.Some? then 0 else Min(RESTARTS, After(r, h).ca.crashes)
  {
    if i == |h| {
      assert h[..i] == h;
      ReadinessFollowsStartup(r, h);
    } else {
      hide Step;
      var front := h[..|h| - 1];
      assert front[..i] == h[..i];
      RestartsAfterReady(r, front, i);
      ReachableSound(r, front);
      PhaseStep(r.config, After(r, front), h[|h| - 1]);
      CaMoves(r.config, After(r, front), h[|h| - 1]);
    }
  }

  // ---------------------------------------------------------------- forgiving a crash count

  /** The step stops manager `w`: by command, at shutdown or to restart an unhealthy CA. */
  predicate Stops(c: Config, s: State, e: Event, w: Which) {
    match e.action
    case Shutdown => true
    case Handle(StopAll) => true
    case Handle(StopVm) => w.Vm?
    case Handle(StopCa) => w.Ca?
    case HealthCheck(out, _) =>
      w.Ca? && HealthDue(c, s, e.at) && Probed(s) && Health.Probe(c.failThreshold, s.counters, out).1.RestartNeeded?
    case _ => false
  }

  lemma StopStepCondemns(c: Config, s: State, e: Event, w: Which)
    requires Sound(s) && Enabled(s, e) && Stops(c, s, e, w) && s.Of(w).pid.Some?
    ensures s.Of(w).pid.value in Step(c, s, e).procs.condemned
  {}

  /**
   A deliberate stop (by a client, to restart an unhealthy CA or at shutdown) is never later
   counted as a crash: when the child that step `i` stopped is finally collected, neither manager
   changes, whatever was spawned, stopped or collected in between.
   */
  lemma DeliberateStopIsNeverACrash(r: Run, h: seq<Event>, i: nat, w: Which, e: Event)
    requires Legal(r, h + [e]) && i < |h|
    requires Stops(r.config, After(r, h[..i]), h[i], w) && After(r, h[..i]).Of(w).pid.Some?
    requires e.action.Reap? && After(r, h[..i]).Of(w).OwnsPid(e.action.pid)
    requires forall k :: i < k < |h| && h[k].action.Reap? ==> h[k].action.pid != e.action.pid
    ensures After(r, h + [e]).vm == After(r, h).vm && After(r, h + [e]).ca == After(r, h).ca
  {
    hide Step, Stops, Sound, After, Legal, Tally, Enabled;
    Extend(r, h, e);
    PrefixLegal(r, h, i);
    PrefixLegal(r, h, i + 1);
    assert h[..i + 1] == h[..i] + [h[i]];
    Extend(r, h[..i], h[i]);
    ReachableSound(r, h[..i]);
    StopStepCondemns(r.config, After(r, h[..i]), h[i], w);
    StopIsNeverACrash(r, h, i + 1, e);
  }

  /** Step `j` of the history brings manager `w` down, by a tracked death or by a stop. */
  predicate DownAt(r: Run, h: seq<Event>, j: nat, w: Which)
    requires j < |h|
  {
    var s := After(r, h[..j]);
    Died(s, h[j], w) || Stops(r.config, s, h[j], w)
  }

  predicate ReadyAt(r: Run, h: seq<Event>, k: nat, w: Which)
    requires k < |h|
  {
    TurnsReady(After(r, h[..k]), After(r, h[..k + 1]), w)
  }

  /** A step that brings `w` down clears its ready stamp. */
  lemma DownClearsStamp(c: Config, s: State, e: Event, w: Which)
    requires Sound(s) && Enabled(s, e)
    requires Died(s, e, w) || Stops(c, s, e, w)
    ensures Step(c, s, e).Of(w).readySince.None? && !Step(c, s, e).Of(w).stage.Ready?
  {}

  lemma StampStep(c: Config, s: State, e: Event, w: Which)
    requires Sound(s) && ReadyOnlyAfter(s) && Enabled(s, e)
    requires Step(c, s, e).Of(w).readySince.Some?
    ensures Step(c, s, e).Of(w).readySince == s.Of(w).readySince
            || (TurnsReady(s, Step(c, s, e), w) && Step(c, s, e).Of(w).readySince == Some(e.until))
  {
    hide Step;
    VmMoves(c, s, e);
    CaMoves(c, s, e);
  }

  /** A ready stamp is the time of the step that made the manager ready, and nothing brought it down since. */
  lemma {:induction false} StampHasAWitness(r: Run, h: seq<Event>, w: Which) returns (k: nat)
    requires Legal(r, h) && After(r, h).Of(w).readySince.Some?
    ensures k < |h| && ReadyAt(r, h, k, w) && h[k].until == After(r, h).Of(w).readySince.value
    ensures forall j :: k <= j < |h| ==> !DownAt(r, h, j, w)
  {
    hide Step, Enabled, Sound, ReadyOnlyAfter, Stops;
    var front, last := h[..|h| - 1], h[|h| - 1];
    ReachableSound(r, front);
    ReadinessFollowsStartup(r, front);
    StampStep(r.config, After(r, front), last, w);
    if DownAt(r, h, |front|, w) {
      DownClearsStamp(r.config, After(r, front), last, w);
    }
    assert h[..|h|] == h;
    if TurnsReady(After(r, front), After(r, h), w) && After(r, h).Of(w).readySince == Some(last.until) {
      k := |front|;
    } else {
      k := StampHasAWitness(r, front, w);
      assert front[..k] == h[..k] && front[..k + 1] == h[..k + 1];
      forall j | k <= j < |h|
        ensures !DownAt(r, h, j, w)
      {
        if j < |front| {
          assert front[..j] == h[..j];
          assert !DownAt(r, front, j, w);
        }
      }
    }
  }

  /** A stamped manager keeps its stamp through every step that does not bring it down. */
  lemma StampKept(c: Config, s: State, e: Event, w: Which)
    requires Sound(s) && ReadyOnlyAfter(s) && Enabled(s, e) && s.Of(w).readySince.Some?
    requires !Died(s, e, w) && !Stops(c, s, e, w)
    ensures Step(c, s, e).Of(w).readySince == s.Of(w).readySince
  {}

  /** The converse of `StampHasAWitness`: ready at step `k` and never brought down since means stamped. */
  lemma {:induction false} WitnessGivesStamp(r: Run, h: seq<Event>, k: nat, w: Which)
    requires Legal(r, h) && k < |h| && ReadyAt(r, h, k, w)
    requires forall j :: k <= j < |h| ==> !DownAt(r, h, j, w)
    ensures After(r, h).Of(w).readySince == Some(h[k].until)
    decreases |h|
  {
    hide Step, Enabled, Sound, Stops;
    var front, last := h[..|h| - 1], h[|h| - 1];
    ReachableSound(r, front);
    ReadinessFollowsStartup(r, front);
    assert h[..|h|] == h;
    if k == |h| - 1 {
      VmMoves(r.config, After(r, front), last);
      CaMoves(r.config, After(r, front), last);
    } else {
      assert front[..k] == h[..k] && front[..k + 1] == h[..k + 1];
      forall j | k <= j < |front|
        ensures !DownAt(r, front, j, w)
      {
        assert front[..j] == h[..j];
        assert !DownAt(r, h, j, w);
      }
      WitnessGivesStamp(r, front, k, w);
      assert !DownAt(r, h, |front|, w);
      StampKept(r.config, After(r, front), last, w);
    }
  }

  /** Manager `w` became ready at step `k`, sixty seconds before `now`, and nothing brought it down since. */
  predicate StableSince(r: Run, h: seq<Event>, k: nat, w: Which, now: Time) {
    && k < |h| && ReadyAt(r, h, k, w) && h[k].until + 60 * SECOND <= now
    && forall j :: k <= j < |h| ==> !DownAt(r, h, j, w)
  }

  /** The clock reading on which a reset step decides: the VM's count comes first. */
  function ResetReading(e: Event, w: Which): Time { if w.Vm? then e.at else e.until }

  lemma ResetStep(c: Config, s: State, e: Event, w: Which)
    requires e.action.ResetCounts?
    ensures Step(c, s, e).Of(w) == s.Of(w).MaybeReset(ResetReading(e, w))
  {}

  /**
   The crash count that a loop turn finds is cleared if and only if the manager became ready at
   least sixty seconds earlier and since then neither died nor was stopped.
   */
  lemma ResetExactlyAfterAStableMinute(r: Run, h: seq<Event>, e: Event, w: Which)
    requires Legal(r, h + [e]) && e.action.ResetCounts? && After(r, h).Of(w).crashes > 0
    ensures After(r, h + [e]).Of(w).crashes == 0 <==>
            exists k :: StableSince(r, h, k, w, ResetReading(e, w))
    ensures After(r, h + [e]).Of(w).crashes == 0 || After(r, h + [e]).Of(w) == After(r, h).Of(w)
  {
    hide Step, DownAt, ReadyAt;
    Extend(r, h, e);
    ResetStep(r.config, After(r, h), e, w);
    if After(r, h + [e]).Of(w).crashes == 0 {
      var k := StampHasAWitness(r, h, w);
      assert StableSince(r, h, k, w, ResetReading(e, w));
    }
    if k :| StableSince(r, h, k, w, ResetReading(e, w)) {
      WitnessGivesStamp(r, h, k, w);
    }
  }

  /** No other step lowers a crash count. */
  lemma ResetNeedsAStableMinute(r: Run, h: seq<Event>, e: Event, w: Which)
    requires Legal(r, h + [e])
    requires After(r, h + [e]).Of(w).crashes < After(r, h).Of(w).crashes
    ensures e.action.ResetCounts? && After(r, h + [e]).Of(w).crashes == 0
    ensures exists k :: StableSince(r, h, k, w, ResetReading(e, w))
  {
    hide Step, StableSince;
    Extend(r, h, e);
    ReachableSound(r, h);
    VmMoves(r.config, After(r, h), e);
    CaMoves(r.config, After(r, h), e);
    ResetExactlyAfterAStableMinute(r, h, e, w);
  }

  /**
   A stable CA is forgiven only while its first readiness lasts.  Once startup has ended and the
   ready stamp is gone, after one death or one stop, no later minute of stability counts: the crash
   count only grows for the rest of the run.
   */
  lemma {:induction false} ForgivenessIsLost(r: Run, h: seq<Event>, i: nat)
    requires Legal(r, h) && i <= |h|
    requires After(r, h[..i]).phase.Terminal() && After(r, h[..i]).ca.readySince.None?
    ensures After(r, h).phase.Terminal() && After(r, h).ca.readySince.None?
    ensures After(r, h[..i]).ca.crashes <= After(r, h).ca.crashes
  {
    if i == |h| {
      assert h[..i] == h;
    } else {
      hide Step;
      var front := h[..|h| - 1];
      assert front[..i] == h[..i];
      ForgivenessIsLost(r, front, i);
      ReachableSound(r, front);
      PhaseStep(r.config, After(r, front), h[|h| - 1]);
      CaMoves(r.config, After(r, front), h[|h| - 1]);
    }
  }

  /** A crash count never exceeds the deaths it counts, so 32 bits suffice for fewer than 2^32 deaths. */
  lemma {:induction false} CrashesCountDeaths(r: Run, h: seq<Event>, w: Which)
    requires Legal(r, h)
    ensures After(r, h).Of(w).crashes <= Tally(r, h, Dies(w))
  {
    if h != [] {
      hide Step;
      CrashesCountDeaths(r, h[..|h| - 1], w);
      ReachableSound(r, h[..|h| - 1]);
      VmMoves(r.config, After(r, h[..|h| - 1]), h[|h| - 1]);
      CaMoves(r.config, After(r, h[..|h| - 1]), h[|h| - 1]);
    }
  }
}
