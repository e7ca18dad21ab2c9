/** How often an unhealthy CA can be restarted: the health cadence over whole runs. */
module Cadence {
  import opened Basics
  import opened Managers
  import opened Protocol
  import opened Ownership
  import opened Startup
  import opened Recovery
  import Health

  /** A health check that is due and finds a CA to probe. */
  predicate Checks(c: Config, s: State, e: Event) {
    e.action.HealthCheck? && HealthDue(c, s, e.at) && Probed(s)
  }

  function Probes(c: Config): (State, Event, State) -> bool {
    (s: State, e: Event, s': State) => Checks(c, s, e)
  }

  /** A health check that stops the CA and starts it again. */
  function HealthRestarts(c: Config): (State, Event, State) -> bool {
    (s: State, e: Event, s': State) => e.action.HealthCheck? && Stops(c, s, e, Ca)
  }

  /** Restarts are paid for by probes, and probes by time. */
  predicate PaidFor(c: Config, s: State, start: Time, restarts: nat, probes: nat) {
    && s.counters.failures < Health.Period(c.failThreshold)
    && s.counters.timeouts < Health.TIMEOUT_THRESHOLD
    && restarts * Health.Price(c.failThreshold) + s.counters.failures + s.counters.timeouts <= probes
    && start + probes * (c.healthInterval * SECOND) <= s.lastHealth <= s.clock
  }

  /** A health check that runs moves the counters as the monitor does and restarts the cadence. */
  lemma CheckStep(c: Config, s: State, e: Event)
    requires Checks(c, s, e) && Enabled(s, e)
    ensures Step(c, s, e).counters == Health.Probe(c.failThreshold, s.counters, e.action.outcome).0
    ensures Stops(c, s, e, Ca) <==> Health.Probe(c.failThreshold, s.counters, e.action.outcome).1.RestartNeeded?
    ensures s.lastHealth + c.healthInterval * SECOND <= Step(c, s, e).lastHealth == Step(c, s, e).clock
  {}

  /** Every other step leaves the counters alone. */
  lemma OtherStep(c: Config, s: State, e: Event)
    requires !Checks(c, s, e) && Enabled(s, e) && s.lastHealth <= s.clock
    ensures Step(c, s, e).counters == s.counters
    ensures s.lastHealth <= Step(c, s, e).lastHealth <= Step(c, s, e).clock
    ensures e.action.HealthCheck? ==> !Stops(c, s, e, Ca)
  {}

  /**
   A health restart replaces the child: the old one is handed to `graceful_kill`, and the manager
   tracks the new one, if it could be spawned.
   */
  lemma HealthRestartReplacesChild(c: Config, s: State, e: Event)
    requires Sound(s) && Enabled(s, e) && e.action.HealthCheck?
    ensures !Stops(c, s, e, Ca) ==> Step(c, s, e).ca == s.ca && Step(c, s, e).procs == s.procs
    ensures Stops(c, s, e, Ca) ==>
            && NewlyCondemned(s, Step(c, s, e)) == (if s.ca.pid.Some? then {s.ca.pid.value} else {})
            && Step(c, s, e).ca.pid == (if e.action.respawn.Spawned? then Some(e.action.respawn.pid) else None)
            && Step(c, s, e).ca.readySince.None? && Step(c, s, e).ca.crashes == s.ca.crashes
            && Step(c, s, e).procs.running == s.procs.Fork(e.action.respawn).running
    ensures Step(c, s, e).vm == s.vm && Step(c, s, e).phase == s.phase
  {}

  lemma PaymentStep(c: Config, s: State, e: Event, start: Time, restarts: nat, probes: nat)
    requires Enabled(s, e) && PaidFor(c, s, start, restarts, probes)
    ensures var s' := Step(c, s, e);
            PaidFor(c, s', start, restarts + (if HealthRestarts(c)(s, e, s') then 1 else 0),
                    probes + (if Probes(c)(s, e, s') then 1 else 0))
  {
    hide Step, Health.Probe, Health.Price, Stops, HealthDue, Probed;
    var interval := c.healthInterval * SECOND;
    assert (probes + 1) * interval == probes * interval + interval;
    if !Checks(c, s, e) {
      OtherStep(c, s, e);
    } else {
      CheckStep(c, s, e);
      Health.ProbePaysForRestart(c.failThreshold, s.counters, e.action.outcome, restarts);
    }
  }

  lemma InitiallyPaid(c: Config, start: Time)
    ensures PaidFor(c, Initial(c, start), start, 0, 0)
  {}

  lemma {:induction false} HealthIsPaidFor(r: Run, h: seq<Event>)
    requires Legal(r, h)
    ensures PaidFor(r.config, After(r, h), r.start,
                    Tally(r, h, HealthRestarts(r.config)), Tally(r, h, Probes(r.config)))
  {
    hide Step, PaidFor;
    if h == [] {
      InitiallyPaid(r.config, r.start);
    } else {
      var c, front := r.config, h[..|h| - 1];
      HealthIsPaidFor(r, front);
      PaymentStep(c, After(r, front), h[|h| - 1], r.start,
                  Tally(r, front, HealthRestarts(c)), Tally(r, front, Probes(c)));
    }
  }

  lemma QuotientBound(a: nat, d: nat, b: nat)
    requires d >= 1 && a * d <= b
    ensures a <= b / d
  {
    assert a * d < (b / d + 1) * d;
  }

  /**
   Health restart rate: by any time of any run, the health-driven restarts times the fewest probes
   a restart costs do not exceed the number of whole health intervals since the loop was entered.
   */
  lemma HealthRestartRate(r: Run, h: seq<Event>)
    requires Legal(r, h) && r.config.healthInterval >= 1
    ensures r.start <= After(r, h).clock
    ensures Tally(r, h, HealthRestarts(r.config)) * Health.Price(r.config.failThreshold)
            <= (After(r, h).clock - r.start) / (r.config.healthInterval * SECOND)
  {
    hide Step, After, Tally, Health.Price;
    HealthIsPaidFor(r, h);
    var restarts, probes := Tally(r, h, HealthRestarts(r.config)), Tally(r, h, Probes(r.config));
    var d := r.config.healthInterval * SECOND;
    QuotientBound(probes, d, After(r, h).clock - r.start);
  }

  // ---------------------------------------------------------------- when a check is made, and what it does

  /**
   When the latest health check that was due ended, or else when the loop was entered.  A check is
   due if a whole interval has passed since then; the events alone tell.
   */
  function LastCheck(r: Run, h: seq<Event>): Time {
    if h == [] then r.start else
    var earlier := LastCheck(r, h[..|h| - 1]);
    if DueAfter(r, earlier, h[|h| - 1]) then h[|h| - 1].until else earlier
  }

  predicate DueAfter(r: Run, earlier: Time, e: Event) {
    e.action.HealthCheck? && e.at >= earlier + r.config.healthInterval * SECOND
  }

  /** The health check `e` after history `h` is due and finds the CA up, ready or not: it is made. */
  predicate CheckMade(r: Run, h: seq<Event>, e: Event) {
    DueAfter(r, LastCheck(r, h), e) && After(r, h).ca.stage in {Up, Ready}
  }

  /** The outcomes of the checks that were made, in order. */
  function Outcomes(r: Run, h: seq<Event>): seq<Health.Outcome> {
    if h == [] then [] else
    var front, e := h[..|h| - 1], h[|h| - 1];
    Outcomes(r, front) + if CheckMade(r, front, e) then [e.action.outcome] else []
  }

  lemma OutcomesExtend(r: Run, h: seq<Event>, e: Event)
    ensures Outcomes(r, h + [e]) == Outcomes(r, h) + if CheckMade(r, h, e) then [e.action.outcome] else []
    ensures LastCheck(r, h + [e]) == if DueAfter(r, LastCheck(r, h), e) then e.until else LastCheck(r, h)
  {
    assert (h + [e])[..|h|] == h;
  }

  lemma CadenceStep(c: Config, s: State, e: Event)
    ensures var s' := Step(c, s, e);
            var due := e.action.HealthCheck? && e.at >= s.lastHealth + c.healthInterval * SECOND;
            && s'.lastHealth == (if due then e.until else s.lastHealth)
            && s'.counters == if due && s.ca.stage in {Up, Ready}
                              then Health.Probe(c.failThreshold, s.counters, e.action.outcome).0 else s.counters
  {}

  lemma {:induction false} MonitorSeesOutcomes(r: Run, h: seq<Event>)
    requires Legal(r, h)
    ensures After(r, h).lastHealth == LastCheck(r, h)
    ensures After(r, h).counters == Health.Replay(r.config.failThreshold, Outcomes(r, h))
  {
    if h != [] {
      hide Step, Health.Probe;
      var front, e := h[..|h| - 1], h[|h| - 1];
      MonitorSeesOutcomes(r, front);
      CadenceStep(r.config, After(r, front), e);
      assert h == front + [e];
      OutcomesExtend(r, front, e);
      if CheckMade(r, front, e) {
        assert Outcomes(r, h)[..|Outcomes(r, front)|] == Outcomes(r, front);
      } else {
        assert Outcomes(r, h) == Outcomes(r, front);
      }
    }
  }

  /**
   Both counters, at any time of any run: the refusals among the checks made since the last success,
   and the timeouts since the last success or refusal, modulo their thresholds.  No other step counts.
   */
  lemma CountersFollowChecks(r: Run, h: seq<Event>)
    requires Legal(r, h)
    ensures After(r, h).counters ==
            Health.Counters(Health.RefusalsSince(Outcomes(r, h)) % Max(1, r.config.failThreshold),
                            Health.TimeoutsSince(Outcomes(r, h)) % 10)
  {
    hide After, Outcomes;
    MonitorSeesOutcomes(r, h);
    Health.CountersRefineHistory(r.config.failThreshold, Outcomes(r, h));
  }

  /** The check is made, and with its outcome the refusals or the timeouts fill their threshold again. */
  predicate CheckFails(r: Run, h: seq<Event>, e: Event) {
    && CheckMade(r, h, e)
    && var seen := Outcomes(r, h) + [e.action.outcome];
       || (e.action.outcome.Refused? && Health.RefusalsSince(seen) % Max(1, r.config.failThreshold) == 0)
       || (e.action.outcome.TimedOut? && Health.TimeoutsSince(seen) % 10 == 0)
  }

  lemma FailingStep(c: Config, s: State, e: Event)
    requires e.action.HealthCheck?
    ensures Stops(c, s, e, Ca) <==>
            && e.at >= s.lastHealth + c.healthInterval * SECOND
            && s.ca.stage in {Up, Ready}
            && Health.Probe(c.failThreshold, s.counters, e.action.outcome).1 == Health.RestartNeeded
  {}

  /** A health check restarts the CA exactly if it fails in this sense; otherwise it leaves the CA alone. */
  lemma HealthRestartsExactly(r: Run, h: seq<Event>, e: Event)
    requires Legal(r, h + [e]) && e.action.HealthCheck?
    ensures var s, s' := After(r, h), After(r, h + [e]);
            if CheckFails(r, h, e) then
              && NewlyCondemned(s, s') == (if s.ca.pid.Some? then {s.ca.pid.value} else {})
              && s'.ca.pid == (if e.action.respawn.Spawned? then Some(e.action.respawn.pid) else None)
              && s'.ca.readySince.None? && s'.ca.crashes == s.ca.crashes
              && HealthRestarts(r.config)(s, e, s')
            else s'.ca == s.ca && s'.procs == s.procs && !HealthRestarts(r.config)(s, e, s')
  {
    hide Step, Stops, Health.Probe, Sound, Enabled;
    var c, o := r.config, e.action.outcome;
    Extend(r, h, e);
    ReachableSound(r, h);
    MonitorSeesOutcomes(r, h);
    FailingStep(c, After(r, h), e);
    Health.VerdictRefinesHistory(c.failThreshold, Outcomes(r, h), o);
    HealthRestartReplacesChild(c, After(r, h), e);
  }

  // ---------------------------------------------------------------- all CA spawns

  /** The step starts a CA: a client asks for it, or startup, a death or a failed health check does. */
  predicate StartsCa(c: Config, s: State, e: Event) {
    match e.action
    case Handle(StartCa(o)) => o.Spawned?
    case Advance(o, _) => s.phase.CaStarting? && o.Spawned?
    case Reap(p, o) => s.ca.OwnsPid(p) && s.ca.crashes + 1 < MAX_CRASHES && o.Spawned?
    case HealthCheck(_, o) => Stops(c, s, e, Ca) && o.Spawned?
    case _ => false
  }

  lemma CaSpawnStep(c: Config, s: State, e: Event)
    requires Sound(s) && Enabled(s, e)
    ensures Gains(s, Step(c, s, e), Ca) <==> StartsCa(c, s, e)
  {}

  /** Exactly these steps spawn a CA; `start_all` is not among them. */
  lemma CaSpawnsExactly(r: Run, h: seq<Event>, e: Event)
    requires Legal(r, h + [e])
    ensures Gains(After(r, h), After(r, h + [e]), Ca) <==> StartsCa(r.config, After(r, h), e)
  {
    hide Step, StartsCa;
    Extend(r, h, e);
    ReachableSound(r, h);
    CaSpawnStep(r.config, After(r, h), e);
  }

  /** Without `start_ca` a CA is spawned by startup, after a death or by a health restart, and by nothing else. */
  lemma CaSpawnHasACause(c: Config, s: State, e: Event)
    requires Sound(s) && Enabled(s, e) && !AsksForCa(e)
    ensures var s' := Step(c, s, e);
            Gains(s, s', Ca) ==>
              RankReached(s, s', 3) || CaRestarted(s, e, s') || (e.action.HealthCheck? && Stops(c, s, e, Ca))
  {}

  lemma {:induction false} CaSpawnsByCause(r: Run, h: seq<Event>)
    requires Legal(r, h)
    requires forall k :: 0 <= k < |h| ==> !AsksForCa(h[k])
    ensures Tally(r, h, Spawns(Ca)) <=
            Tally(r, h, Enters(3)) + Tally(r, h, RestartsCa()) + Tally(r, h, HealthRestarts(r.config))
  {
    if h != [] {
      hide Step, Enabled;
      var front := h[..|h| - 1];
      assert forall k :: 0 <= k < |front| ==> front[k] == h[k];
      CaSpawnsByCause(r, front);
      ReachableSound(r, front);
      CaSpawnHasACause(r.config, After(r, front), h[|h| - 1]);
    }
  }

  /** Every CA ever spawned without `start_ca`: one at startup, eight after deaths, the rest by health restarts. */
  lemma CaSpawnBudget(r: Run, h: seq<Event>)
    requires Legal(r, h)
    requires forall k :: 0 <= k < |h| ==> !AsksForCa(h[k])
    ensures Tally(r, h, Spawns(Ca)) <= 1 + 2 * RESTARTS + Tally(r, h, HealthRestarts(r.config))
  {
    hide Step, After, Tally, Legal;
    CaSpawnsByCause(r, h);
    PhaseEnteredOnce(r, h, 3);
    LifetimeRestartBudget(r, h);
  }

  /** So at most nine, plus one for each `Price` whole health intervals since the loop was entered. */
  lemma CaSpawnRate(r: Run, h: seq<Event>)
    requires Legal(r, h) && r.config.healthInterval >= 1
    requires forall k :: 0 <= k < |h| ==> !AsksForCa(h[k])
    ensures r.start <= After(r, h).clock
    ensures Tally(r, h, Spawns(Ca)) <= 1 + 2 * RESTARTS +
            (After(r, h).clock - r.start) / (r.config.healthInterval * SECOND) / Health.Price(r.config.failThreshold)
  {
    hide Step, After, Tally, Legal, Health.Price;
    CaSpawnBudget(r, h);
    HealthRestartRate(r, h);
    QuotientBound(Tally(r, h, HealthRestarts(r.config)), Health.Price(r.config.failThreshold),
                  (After(r, h).clock - r.start) / (r.config.healthInterval * SECOND));
  }
}
