/**
 Runs that show a bound to be reached or a promise to be broken.  Each is a run of the main loop,
 turn by turn in the loop's own order.
 */
module Witnesses {
  import opened Basics
  import opened Processes
  import opened Managers
  import opened Protocol
  import opened Ownership
  import opened Recovery
  import opened Cadence
  import opened Lifetimes
  import opened Loops
  import Health

  // ---------------------------------------------------------------- turns

  /** A turn that takes no time: given collections, no client, and a health probe that counts for nothing. */
  function TurnAt(t: Time, reaps: seq<Event>, o: SpawnOutcome, answer: bool): Turn {
    Turn(reaps, [], Event(t, Advance(o, answer), t),
         Event(t, HealthCheck(Health.OtherError, NotInstalled), t), Event(t, ResetCounts, t))
  }

  /** What the last three steps of such a turn make of a state. */
  predicate Tended(c: Config, s: State, t: Time, o: SpawnOutcome, answer: bool, s': State) {
    var s1 := AdvanceStartup(c, s.(clock := t), t, t, o, answer);
    && s'.vm == s1.vm.MaybeReset(t) && s'.ca == s1.ca.MaybeReset(t)
    && s'.phase == s1.phase && s'.procs == s1.procs && s'.clock == t && s'.serving
  }

  lemma TendSteps(c: Config, s: State, t: Time, o: SpawnOutcome, answer: bool)
    requires s.serving && s.clock <= t && s.procs.Allows(o)
    ensures var turn := TurnAt(t, [], o, answer);
            var s1 := Step(c, s, turn.advance);
            var s2 := Step(c, s1, turn.check);
            var s3 := Step(c, s2, turn.reset);
            && Enabled(s, turn.advance) && Enabled(s1, turn.check) && Enabled(s2, turn.reset)
            && Tended(c, s, t, o, answer, s3)
            && !CaRestarted(s, turn.advance, s1) && !CaRestarted(s1, turn.check, s2) && !CaRestarted(s2, turn.reset, s3)
  {}

  lemma Tend(r: Run, h: seq<Event>, t: Time, o: SpawnOutcome, answer: bool)
    requires Legal(r, h) && After(r, h).serving && After(r, h).clock <= t && After(r, h).procs.Allows(o)
    ensures var turn := TurnAt(t, [], o, answer);
            var h' := h + [turn.advance] + [turn.check] + [turn.reset];
            && Legal(r, h') && Tended(r.config, After(r, h), t, o, answer, After(r, h'))
            && Tally(r, h', RestartsCa()) == Tally(r, h, RestartsCa())
  {
    hide Step, Enabled, Tended, Legal, After, CaRestarted;
    var turn := TurnAt(t, [], o, answer);
    TendSteps(r.config, After(r, h), t, o, answer);
    Extend(r, h, turn.advance);
    Extend(r, h + [turn.advance], turn.check);
    Extend(r, h + [turn.advance] + [turn.check], turn.reset);
  }

  /** A loop run goes on with a turn whose collections, if any, leave no zombie. */
  lemma AddTurn(r: Run, ts: seq<Turn>, t: Time, reaps: seq<Event>, o: SpawnOutcome, answer: bool)
    requires LoopRun(r, ts) && Legal(r, Flatten(ts) + reaps) && Drains(r, Flatten(ts), reaps)
    requires var s := After(r, Flatten(ts) + reaps);
             s.serving && s.clock <= t && s.procs.Allows(o)
    ensures var ts' := ts + [TurnAt(t, reaps, o, answer)];
            && LoopRun(r, ts')
            && Tended(r.config, After(r, Flatten(ts) + reaps), t, o, answer, After(r, Flatten(ts')))
            && Tally(r, Flatten(ts'), RestartsCa()) == Tally(r, Flatten(ts) + reaps, RestartsCa())
  {
    hide Step, After, Legal, Tally, Tended, Drains, Flatten, TakesTurns;
    var turn := TurnAt(t, reaps, o, answer);
    Tend(r, Flatten(ts) + reaps, t, o, answer);
    LoopsExtend(r, [], ts, turn);
    assert [] + Flatten(ts) == Flatten(ts);
    assert Flatten(ts) + turn.Events() == Flatten(ts) + reaps + [turn.advance] + [turn.check] + [turn.reset];
  }

  /** A turn without collections. */
  lemma AddQuietTurn(r: Run, ts: seq<Turn>, t: Time, o: SpawnOutcome, answer: bool)
    requires LoopRun(r, ts)
    requires var s := After(r, Flatten(ts));
             s.serving && s.clock <= t && s.procs.Allows(o)
    ensures var ts' := ts + [TurnAt(t, [], o, answer)];
            && LoopRun(r, ts')
            && Tended(r.config, After(r, Flatten(ts)), t, o, answer, After(r, Flatten(ts')))
            && Tally(r, Flatten(ts'), RestartsCa()) == Tally(r, Flatten(ts), RestartsCa())
  {
    hide Step, After, Tally, Tended, Flatten, TakesTurns, Legal;
    assert Flatten(ts) + [] == Flatten(ts);
    AddTurn(r, ts, t, [], o, answer);
  }

  /** There is always a pid that is not in use. */
  lemma FreshPid(used: set<Pid>) returns (p: Pid)
    ensures forall q <- used :: q < p
  {
    p := 0;
    if used != {} {
      var q :| q in used;
      var above := FreshPid(used - {q});
      p := Max(q + 1, above);
      assert forall x <- used :: x == q || x in used - {q};
    }
  }

  // ---------------------------------------------------------------- a smooth boot

  /** The CA runs as child 2, all dead children are collected, and the loop is serving. */
  predicate Steady(s: State) { s.serving && s.ca.OwnsPid(2) && 2 in s.procs.running && s.procs.zombies == {} }

  /** Startup answered at the first opportunity: the VM gets pid 1, the CA pid 2. */
  function SmoothBoot(r: Run): seq<Turn> {
    var t := r.start + r.config.probeDelay * SECOND;
    [TurnAt(r.start, [], Spawned(1), false)] + [TurnAt(t, [], NotInstalled, false)]
    + [TurnAt(t, [], NotInstalled, true)] + [TurnAt(t, [], Spawned(2), false)]
  }

  lemma BootVm(r: Run)
    requires r.config.autoStart
    ensures var ts := [TurnAt(r.start, [], Spawned(1), false)];
            var s := After(r, Flatten(ts));
            && LoopRun(r, ts) && Tally(r, Flatten(ts), RestartsCa()) == 0
            && s.phase == WaitingVsock(VsockDeadline(r.config, r.start), r.start, false)
            && s.vm == Status(Up, Some(1), 0, None) && s.ca == NEW_MANAGER
            && s.procs == Procs({1}, {}, {}) && s.clock == r.start && s.serving
  {
    assert Flatten([]) == [];
    AddQuietTurn(r, [], r.start, Spawned(1), false);
    assert [] + [TurnAt(r.start, [], Spawned(1), false)] == [TurnAt(r.start, [], Spawned(1), false)];
  }

  lemma SmoothBootWorks(r: Run)
    requires r.config.autoStart && r.config.probeDelay + r.config.bootTimeout < U64_RANGE
    ensures var ts := SmoothBoot(r);
            && LoopRun(r, ts) && Tally(r, Flatten(ts), RestartsCa()) == 0
            && After(r, Flatten(ts)).phase.WaitingCaPort? && Steady(After(r, Flatten(ts)))
            && After(r, Flatten(ts)).phase.portDeadline >= After(r, Flatten(ts)).clock
            && After(r, Flatten(ts)).procs.running == {1, 2} && After(r, Flatten(ts)).ca.crashes == 0
  {
    hide Step, After, Tally, Flatten, TakesTurns, Legal;
    var t := r.start + r.config.probeDelay * SECOND;
    var t1, t2 := TurnAt(r.start, [], Spawned(1), false), TurnAt(t, [], NotInstalled, false);
    var t3 := TurnAt(t, [], NotInstalled, true);
    BootVm(r);
    AddQuietTurn(r, [t1], t, NotInstalled, false);
    AddQuietTurn(r, [t1] + [t2], t, NotInstalled, true);
    AddQuietTurn(r, [t1] + [t2] + [t3], t, Spawned(2), false);
  }

  // ---------------------------------------------------------------- a CA that keeps dying

  /** Child 2 exits and is collected, `n` times in a row; each time the kernel reuses its pid. */
  function DieAgain(t: Time, n: nat): seq<Event> {
    if n == 0 then []
    else DieAgain(t, n - 1) + [Event(t, Exits({2}), t)] + [Event(t, Reap(2, Spawned(2)), t)]
  }

  lemma DyingOnce(c: Config, s: State)
    requires Sound(s) && Steady(s) && s.ca.crashes + 1 <= RESTARTS
    ensures var exit, reap := Event(s.clock, Exits({2}), s.clock), Event(s.clock, Reap(2, Spawned(2)), s.clock);
            var s1 := Step(c, s, exit);
            var s2 := Step(c, s1, reap);
            && Enabled(s, exit) && Enabled(s1, reap)
            && !CaRestarted(s, exit, s1) && CaRestarted(s1, reap, s2)
            && Steady(s2) && s2.ca == Status(Up, Some(2), s.ca.crashes + 1, None)
            && s2.phase == s.phase && s2.clock == s.clock
  {}

  lemma {:induction false} DyingRestarts(r: Run, h: seq<Event>, n: nat)
    requires Legal(r, h) && Steady(After(r, h)) && After(r, h).ca.crashes + n <= RESTARTS
    ensures var s, es := After(r, h), DieAgain(After(r, h).clock, n);
            var s' := After(r, h + es);
            && Legal(r, h + es) && Collecting(es)
            && Tally(r, h + es, RestartsCa()) == Tally(r, h, RestartsCa()) + n
            && Steady(s') && s'.phase == s.phase && s'.clock == s.clock
            && s'.ca == (if n == 0 then s.ca else Status(Up, Some(2), s.ca.crashes + n, None))
  {
    hide Step, Legal, Sound, Enabled, Steady, CaRestarted, After;
    var t := After(r, h).clock;
    if n == 0 {
      assert h + DieAgain(t, n) == h;
    } else {
      var es := DieAgain(t, n - 1);
      DyingRestarts(r, h, n - 1);
      ReachableSound(r, h + es);
      DyingOnce(r.config, After(r, h + es));
      var exit, reap := Event(t, Exits({2}), t), Event(t, Reap(2, Spawned(2)), t);
      Extend(r, h + es, exit);
      Extend(r, h + es + [exit], reap);
      assert h + DieAgain(t, n) == h + es + [exit] + [reap];
      assert DieAgain(t, n)[..|es|] == es;
    }
  }

  /** One `reap_children` call in which the CA dies `n` times, respawned and dead again at once. */
  function DyingCall(t: Time, n: nat): seq<Event> { DieAgain(t, n) + [Event(t, Exits({}), t)] }

  lemma LastWait(c: Config, s: State)
    requires Steady(s)
    ensures var e := Event(s.clock, Exits({}), s.clock);
            Enabled(s, e) && Step(c, s, e) == s && !CaRestarted(s, e, s)
  {}

  lemma DyingDrains(r: Run, h: seq<Event>, n: nat)
    requires Legal(r, h) && Steady(After(r, h)) && After(r, h).ca.crashes + n <= RESTARTS
    ensures var s, es := After(r, h), DyingCall(After(r, h).clock, n);
            var s' := After(r, h + es);
            && Legal(r, h + es) && Drains(r, h, es)
            && Tally(r, h + es, RestartsCa()) == Tally(r, h, RestartsCa()) + n
            && Steady(s') && s'.phase == s.phase && s'.clock == s.clock
            && s'.ca == (if n == 0 then s.ca else Status(Up, Some(2), s.ca.crashes + n, None))
  {
    hide Step, Legal, Enabled, CaRestarted, After, Tally, DieAgain;
    var t := After(r, h).clock;
    var es, e := DieAgain(t, n), Event(t, Exits({}), t);
    DyingRestarts(r, h, n);
    LastWait(r.config, After(r, h + es));
    Extend(r, h + es, e);
    assert h + DyingCall(t, n) == h + es + [e];
    assert DyingCall(t, n)[..|es|] == es;
  }

  /** A turn in which the CA dies `n` times before the startup machine takes its step. */
  lemma AddDyingTurn(r: Run, ts: seq<Turn>, n: nat, answer: bool)
    requires LoopRun(r, ts) && Steady(After(r, Flatten(ts))) && 1 <= n
    requires var s := After(r, Flatten(ts));
             s.ca.crashes + n <= RESTARTS && (s.phase.Complete? || (s.phase.WaitingCaPort? && answer))
    ensures var s := After(r, Flatten(ts));
            var ts' := ts + [TurnAt(s.clock, DyingCall(s.clock, n), NotInstalled, answer)];
            var s' := After(r, Flatten(ts'));
            && LoopRun(r, ts') && Steady(s') && s'.phase.Complete? && s'.clock == s.clock
            && Tally(r, Flatten(ts'), RestartsCa()) == Tally(r, Flatten(ts), RestartsCa()) + n
            && s'.ca.crashes == s.ca.crashes + n
            && s'.ca.readySince == (if s.phase.Complete? then None else Some(s.clock))
  {
    hide Step, After, Tally, Flatten, TakesTurns, Legal, DyingCall, Drains, Sound;
    var h := Flatten(ts);
    var s := After(r, h);
    DyingDrains(r, h, n);
    ReachableSound(r, h + DyingCall(s.clock, n));
    AddTurn(r, ts, s.clock, DyingCall(s.clock, n), NotInstalled, answer);
    DyingTended(r.config, After(r, h + DyingCall(s.clock, n)), answer);
  }

  lemma DyingTended(c: Config, s: State, answer: bool)
    requires Sound(s) && Steady(s) && s.ca.readySince.None?
    requires s.phase.Complete? || (s.phase.WaitingCaPort? && answer)
    ensures forall s' :: Tended(c, s, s.clock, NotInstalled, answer, s') ==>
              && Steady(s') && s'.phase.Complete? && s'.ca.crashes == s.ca.crashes
              && s'.ca.readySince == (if s.phase.Complete? then None else Some(s.clock))
  {}

  // ---------------------------------------------------------------- quiet time

  /** `n` turns, `gap` apart, in which nothing happens. */
  function QuietTurns(t: Time, n: nat, gap: nat): seq<Turn> {
    if n == 0 then [] else QuietTurns(t, n - 1, gap) + [TurnAt(t + n * gap, [], NotInstalled, false)]
  }

  lemma QuietTended(c: Config, s: State, t: Time)
    requires Steady(s) && s.phase.Complete?
    ensures forall s' :: Tended(c, s, t, NotInstalled, false, s') ==>
              && Steady(s') && s'.phase.Complete? && s'.clock == t && s'.ca == s.ca.MaybeReset(t)
  {}

  lemma {:induction false} AddQuietTurns(r: Run, ts: seq<Turn>, n: nat, gap: nat)
    requires LoopRun(r, ts) && Steady(After(r, Flatten(ts))) && After(r, Flatten(ts)).phase.Complete?
    ensures var s := After(r, Flatten(ts));
            var ts' := ts + QuietTurns(s.clock, n, gap);
            var s' := After(r, Flatten(ts'));
            && LoopRun(r, ts') && Steady(s') && s'.phase.Complete? && s'.clock == s.clock + n * gap
            && Tally(r, Flatten(ts'), RestartsCa()) == Tally(r, Flatten(ts), RestartsCa())
            && s'.ca.readySince == s.ca.readySince
            && (s.ca.readySince.None? ==> s'.ca.crashes == s.ca.crashes)
            && (n >= 1 && s.ca.readySince.Some? && s.ca.readySince.value + STABLE <= s'.clock ==> s'.ca.crashes == 0)
  {
    hide Step, After, Tally, Flatten, TakesTurns, Legal, Tended;
    var s := After(r, Flatten(ts));
    if n == 0 {
      assert ts + QuietTurns(s.clock, n, gap) == ts;
    } else {
      var ts1 := ts + QuietTurns(s.clock, n - 1, gap);
      var t := s.clock + n * gap;
      assert t == s.clock + (n - 1) * gap + gap;
      AddQuietTurns(r, ts, n - 1, gap);
      AddQuietTurn(r, ts1, t, NotInstalled, false);
      QuietTended(r.config, After(r, Flatten(ts1)), t);
      assert ts + QuietTurns(s.clock, n, gap) == ts1 + [TurnAt(t, [], NotInstalled, false)];
    }
  }

  // ---------------------------------------------------------------- the results

  const TEN_SECONDS: nat := 10 * SECOND

  /** Eight restarts: four while waiting for the port, a minute of readiness, four more. */
  lemma RestartBudgetIsExact(r: Run)
    requires r.config.autoStart && r.config.probeDelay + r.config.bootTimeout < U64_RANGE
    ensures exists ts :: LoopRun(r, ts) && Tally(r, Flatten(ts), RestartsCa()) == 8
  {
    hide Step, After, Tally, Flatten, LoopRun, SmoothBoot, DyingCall, QuietTurns, Steady;
    var ts0 := SmoothBoot(r);
    SmoothBootWorks(r);
    var t := After(r, Flatten(ts0)).clock;
    AddDyingTurn(r, ts0, RESTARTS, true);
    var ts1 := ts0 + [TurnAt(t, DyingCall(t, RESTARTS), NotInstalled, true)];
    AddQuietTurns(r, ts1, 6, TEN_SECONDS);
    var ts2 := ts1 + QuietTurns(t, 6, TEN_SECONDS);
    AddDyingTurn(r, ts2, RESTARTS, false);
  }

  /** After the turns `ts` the CA goes on running through `n` more, `gap` apart, and keeps its one crash. */
  predicate KeepsACrash(r: Run, ts: seq<Turn>, n: nat, gap: nat) {
    var ts' := ts + QuietTurns(After(r, Flatten(ts)).clock, n, gap);
    && LoopRun(r, ts') && Steady(After(r, Flatten(ts')))
    && After(r, Flatten(ts')).phase.Complete? && After(r, Flatten(ts')).ca.crashes == 1
  }

  /**
   The documented reset after sixty stable seconds can fail: some run of the loop restarts its CA
   once after it was ready, and however long the CA then runs undisturbed, its crash stays on the
   count.
   */
  lemma StableCaMayKeepItsCrash(r: Run, gap: nat)
    requires r.config.autoStart && r.config.probeDelay + r.config.bootTimeout < U64_RANGE
    ensures exists ts :: Tally(r, Flatten(ts), RestartsCa()) == 2 && forall n: nat :: KeepsACrash(r, ts, n, gap)
  {
    hide Step, After, Tally, Flatten, LoopRun, SmoothBoot, DyingCall, QuietTurns, Steady;
    var ts0 := SmoothBoot(r);
    SmoothBootWorks(r);
    var t := After(r, Flatten(ts0)).clock;
    AddDyingTurn(r, ts0, 1, true);
    var ts1 := ts0 + [TurnAt(t, DyingCall(t, 1), NotInstalled, true)];
    AddQuietTurns(r, ts1, 6, TEN_SECONDS);
    var ts2 := ts1 + QuietTurns(t, 6, TEN_SECONDS);
    var u := After(r, Flatten(ts2)).clock;
    AddDyingTurn(r, ts2, 1, false);
    var ts3 := ts2 + [TurnAt(u, DyingCall(u, 1), NotInstalled, false)];
    forall n: nat
      ensures KeepsACrash(r, ts3, n, gap)
    {
      AddQuietTurns(r, ts3, n, gap);
    }
  }

  // ---------------------------------------------------------------- a CA that fails its health checks

  /** A turn whose health check comes back with `out`; child `p` is spawned if that calls for a restart. */
  function CheckTurn(t: Time, out: Health.Outcome, p: Pid): Turn {
    TurnAt(t, [], NotInstalled, false).(check := Event(t, HealthCheck(out, Spawned(p)), t))
  }

  /** A CA that a client started is up, startup has nothing to do, and the last health check was due just now. */
  predicate Watched(s: State, k: Health.Counters, t: Time) {
    && s.serving && s.phase.Terminal() && s.vm == NEW_MANAGER
    && s.ca.stage.Up? && s.ca.pid.Some? && s.ca.readySince.None?
    && s.counters == k && s.lastHealth == t && s.clock == t
  }

  predicate Failing(c: Config, k: Health.Counters, out: Health.Outcome) {
    Health.Probe(c.failThreshold, k, out).1 == Health.RestartNeeded
  }

  lemma CheckSteps(c: Config, s: State, k: Health.Counters, t: Time, out: Health.Outcome, p: Pid)
    requires Sound(s) && Watched(s, k, t) && p !in s.procs.Unreaped()
    ensures var t' := t + c.healthInterval * SECOND;
            var turn := CheckTurn(t', out, p);
            var s1 := Step(c, s, turn.advance);
            var s2 := Step(c, s1, turn.check);
            var s3 := Step(c, s2, turn.reset);
            && Enabled(s, turn.advance) && Enabled(s1, turn.check) && Enabled(s2, turn.reset)
            && Watched(s3, Health.Probe(c.failThreshold, k, out).0, t')
            && (Stops(c, s1, turn.check, Ca) <==> Failing(c, k, out))
  {
    hide Health.Probe;
  }

  /** One more health check, one whole interval after the last. */
  lemma AddCheckTurn(r: Run, ts: seq<Turn>, k: Health.Counters, t: Time, out: Health.Outcome) returns (ts': seq<Turn>)
    requires LoopRun(r, ts) && Watched(After(r, Flatten(ts)), k, t)
    ensures LoopRun(r, ts')
    ensures Watched(After(r, Flatten(ts')), Health.Probe(r.config.failThreshold, k, out).0,
                    t + r.config.healthInterval * SECOND)
    ensures Tally(r, Flatten(ts'), HealthRestarts(r.config)) ==
            Tally(r, Flatten(ts), HealthRestarts(r.config)) + if Failing(r.config, k, out) then 1 else 0
  {
    hide Step, Enabled, After, Legal, Tally, Watched, Failing, Flatten, TakesTurns, Sound, Stops, Health.Probe;
    var h := Flatten(ts);
    var p := FreshPid(After(r, h).procs.Unreaped());
    var turn := CheckTurn(t + r.config.healthInterval * SECOND, out, p);
    ReachableSound(r, h);
    CheckSteps(r.config, After(r, h), k, t, out, p);
    Extend(r, h, turn.advance);
    Extend(r, h + [turn.advance], turn.check);
    Extend(r, h + [turn.advance] + [turn.check], turn.reset);
    LoopsExtend(r, [], ts, turn);
    assert h + turn.Events() == h + [turn.advance] + [turn.check] + [turn.reset];
    ts' := ts + [turn];
  }

  /** How many checks in a row must fail in this way before the CA is restarted. */
  function Needed(c: Config, out: Health.Outcome): nat { if out.Refused? then Max(1, c.failThreshold) else 10 }

  function Counted(out: Health.Outcome, j: nat): Health.Counters {
    if out.Refused? then Health.Counters(j, 0) else Health.Counters(0, j)
  }

  lemma NextCount(c: Config, out: Health.Outcome, j: nat)
    requires (out.Refused? || out.TimedOut?) && j < Needed(c, out)
    ensures Health.Probe(c.failThreshold, Counted(out, j), out).0 ==
            Counted(out, if j + 1 == Needed(c, out) then 0 else j + 1)
    ensures Failing(c, Counted(out, j), out) <==> j + 1 == Needed(c, out)
  {}

  /** After `j` failed checks in a row nothing has happened yet, or the last of them has brought a restart. */
  lemma {:induction false} FailedChecks(r: Run, ts: seq<Turn>, t: Time, out: Health.Outcome, j: nat)
    returns (ts': seq<Turn>)
    requires LoopRun(r, ts) && Watched(After(r, Flatten(ts)), Health.FRESH, t)
    requires (out.Refused? || out.TimedOut?) && j <= Needed(r.config, out)
    ensures LoopRun(r, ts')
    ensures var full := j == Needed(r.config, out);
            && Watched(After(r, Flatten(ts')), Counted(out, if full then 0 else j),
                       t + j * (r.config.healthInterval * SECOND))
            && Tally(r, Flatten(ts'), HealthRestarts(r.config)) ==
               Tally(r, Flatten(ts), HealthRestarts(r.config)) + if full then 1 else 0
  {
    hide Step, After, LoopRun, Tally, Watched, Failing, Flatten, Health.Probe;
    ts' := ts;
    if j > 0 {
      var interval := r.config.healthInterval * SECOND;
      ts' := FailedChecks(r, ts, t, out, j - 1);
      assert t + (j - 1) * interval + interval == t + j * interval;
      ts' := AddCheckTurn(r, ts', Counted(out, j - 1), t + (j - 1) * interval, out);
      NextCount(r.config, out, j - 1);
    }
  }

  lemma {:induction false} ManyFailures(r: Run, ts: seq<Turn>, t: Time, out: Health.Outcome, n: nat)
    returns (ts': seq<Turn>)
    requires LoopRun(r, ts) && Watched(After(r, Flatten(ts)), Health.FRESH, t)
    requires out.Refused? || out.TimedOut?
    ensures LoopRun(r, ts')
    ensures Watched(After(r, Flatten(ts')), Health.FRESH,
                    t + n * (Needed(r.config, out) * (r.config.healthInterval * SECOND)))
    ensures Tally(r, Flatten(ts'), HealthRestarts(r.config)) == Tally(r, Flatten(ts), HealthRestarts(r.config)) + n
  {
    hide Step, After, LoopRun, Tally, Watched, Flatten;
    ts' := ts;
    if n > 0 {
      var round := Needed(r.config, out) * (r.config.healthInterval * SECOND);
      ts' := ManyFailures(r, ts, t, out, n - 1);
      assert t + (n - 1) * round + round == t + n * round;
      ts' := FailedChecks(r, ts', t + (n - 1) * round, out, Needed(r.config, out));
    }
  }

  /** A client starts the CA in the first turn. */
  function StartCaTurn(t: Time): Turn {
    TurnAt(t, [], NotInstalled, false).(requests := [Event(t, Handle(StartCa(Spawned(1))), t)])
  }

  lemma StartCaSteps(c: Config, t: Time)
    requires c.healthInterval >= 1
    ensures var turn, s := StartCaTurn(t), Initial(c, t);
            var s0 := Step(c, s, turn.requests[0]);
            var s1 := Step(c, s0, turn.advance);
            var s2 := Step(c, s1, turn.check);
            && Enabled(s, turn.requests[0]) && Enabled(s0, turn.advance) && Enabled(s1, turn.check)
            && Enabled(s2, turn.reset) && Watched(Step(c, s2, turn.reset), Health.FRESH, t)
            && !Stops(c, s, turn.requests[0], Ca) && !Stops(c, s1, turn.check, Ca)
  {}

  lemma StartCaFirst(r: Run)
    requires r.config.healthInterval >= 1
    ensures var ts := [StartCaTurn(r.start)];
            && LoopRun(r, ts) && Watched(After(r, Flatten(ts)), Health.FRESH, r.start)
            && Tally(r, Flatten(ts), HealthRestarts(r.config)) == 0
  {
    hide Step, Enabled, Watched, Stops, TakesTurns, Flatten;
    var turn := StartCaTurn(r.start);
    StartCaSteps(r.config, r.start);
    assert Legal(r, []) && After(r, []) == Initial(r.config, r.start) && Tally(r, [], HealthRestarts(r.config)) == 0;
    hide After, Legal, Tally, Initial;
    var e := turn.requests[0];
    Extend(r, [], e);
    Extend(r, [] + [e], turn.advance);
    Extend(r, [] + [e] + [turn.advance], turn.check);
    Extend(r, [] + [e] + [turn.advance] + [turn.check], turn.reset);
    assert turn.Events() == [] + [e] + [turn.advance] + [turn.check] + [turn.reset];
    OneTurn(r, turn);
  }

  /**
   A CA that refuses every connection is restarted after exactly `max(1, threshold)` checks one
   interval apart, one that lets every connection time out after exactly ten, again and again: `n`
   restarts take `n` times as many intervals.
   */
  lemma FailingChecksRestart(r: Run, out: Health.Outcome, n: nat) returns (ts: seq<Turn>)
    requires r.config.healthInterval >= 1 && (out.Refused? || out.TimedOut?)
    ensures LoopRun(r, ts) && Tally(r, Flatten(ts), HealthRestarts(r.config)) == n
    ensures After(r, Flatten(ts)).clock == r.start + n * (Needed(r.config, out) * (r.config.healthInterval * SECOND))
  {
    hide Step, After, Tally, Flatten, LoopRun;
    StartCaFirst(r);
    ts := ManyFailures(r, [StartCaTurn(r.start)], r.start, out, n);
  }

  /** The bound on the rate of health restarts is reached, for every configuration and any number of restarts. */
  lemma HealthRateIsTight(r: Run, n: nat)
    requires r.config.healthInterval >= 1
    ensures exists ts :: LoopRun(r, ts) && Tally(r, Flatten(ts), HealthRestarts(r.config)) == n
              && After(r, Flatten(ts)).clock - r.start ==
                 n * Health.Price(r.config.failThreshold) * (r.config.healthInterval * SECOND)
  {
    hide Step, After, Tally, Flatten, LoopRun;
    var out := if Max(1, r.config.failThreshold) <= 10 then Health.Refused else Health.TimedOut;
    var ts := FailingChecksRestart(r, out, n);
    var price, interval := Health.Price(r.config.failThreshold), r.config.healthInterval * SECOND;
    assert Needed(r.config, out) == price;
    TimesAssoc(n, price, interval);
  }

  lemma TimesAssoc(a: nat, b: nat, c: nat)
    ensures a * (b * c) == a * b * c
  {}

  // ---------------------------------------------------------------- a VM that dies

  /** The collection of a VM that exited as child 1. */
  function VmDeath(t: Time): seq<Event> {
    [Event(t, Exits({1}), t)] + [Event(t, Reap(1, NotInstalled), t)] + [Event(t, Exits({}), t)]
  }

  lemma VmDeathIsCall(t: Time)
    ensures ReapCall(VmDeath(t))
  {
    var es := VmDeath(t)[..2];
    assert Collecting(es[..0]);
    assert Collecting(es);
  }

  lemma VmDeathSteps(c: Config, s: State)
    requires s.serving && s.vm.OwnsPid(1) && s.vm.crashes == 0 && s.procs == Procs({1}, {}, {})
    ensures var es := VmDeath(s.clock);
            var s1 := Step(c, s, es[0]);
            var s2 := Step(c, s1, es[1]);
            && Enabled(s, es[0]) && Enabled(s1, es[1]) && Died(s1, es[1], Vm) && Enabled(s2, es[2])
            && Step(c, s2, es[2]) == s2 == s.(vm := s.vm.MarkDead(), procs := NO_CHILDREN)
  {}

  /**
   A VM does die without coming back: some run of the main loop, with no command at all, boots a VM,
   loses it and is left with a crash on the count and no VM.
   */
  lemma VmMayDie(r: Run)
    requires r.config.autoStart
    ensures exists ts, d: nat :: LoopRun(r, ts) && NoCommands(ts) && VmDiesAt(r, ts, d)
  {
    hide Step, After, Legal, Flatten, TakesTurns, Tended, Enabled, Tally, Died;
    var t, ts, es := r.start, [TurnAt(r.start, [], Spawned(1), false)], VmDeath(r.start);
    BootVm(r);
    var h := Flatten(ts);
    VmDeathSteps(r.config, After(r, h));
    Extend(r, h, es[0]);
    Extend(r, h + [es[0]], es[1]);
    Extend(r, h + [es[0]] + [es[1]], es[2]);
    assert h + es == h + [es[0]] + [es[1]] + [es[2]];
    VmDeathIsCall(t);
    AddTurn(r, ts, t, es, NotInstalled, false);
    var turn := TurnAt(t, es, NotInstalled, false);
    LoopsExtend(r, [], ts, turn);
    var h', d := Flatten(ts + [turn]), |h| + 1;
    assert h'[..d] == h + [es[0]] && h'[d] == es[1];
    DeathTended(r.config, After(r, h + es), t, After(r, h'));
    assert VmDiesAt(r, ts + [turn], d);
  }

  predicate NoCommands(ts: seq<Turn>) { forall i :: 0 <= i < |ts| ==> ts[i].requests == [] }

  /** Step `d` is the death of the VM, and the run ends without one. */
  predicate VmDiesAt(r: Run, ts: seq<Turn>, d: nat) {
    && d < |Flatten(ts)| && Died(After(r, Flatten(ts)[..d]), Flatten(ts)[d], Vm)
    && After(r, Flatten(ts)).vm == Status(Idle, None, 1, None)
  }

  lemma DeathTended(c: Config, s: State, t: Time, s': State)
    requires s.vm == Status(Idle, None, 1, None) && s.ca == NEW_MANAGER && s.phase.WaitingVsock? && !s.phase.delayDone
    requires Tended(c, s, t, NotInstalled, false, s')
    ensures s'.vm == s.vm
  {}

  // ---------------------------------------------------------------- an orphan

  /** A client starts the VM twice; the turn is completed and a shutdown signal follows. */
  function StartTwice(t: Time): Session {
    var e1, e2 := Event(t, Handle(StartVm(Spawned(1))), t), Event(t, Handle(StartVm(Spawned(2))), t);
    Session([TurnAt(t, [], NotInstalled, false).(requests := [e1, e2])], [], Event(t, Shutdown, t))
  }

  predicate TwoVms(s: State, t: Time) {
    && s.serving && s.clock == t && s.vm == Status(Up, Some(2), 0, None) && s.ca == NEW_MANAGER
    && s.procs == Procs({1, 2}, {}, {}) && (s.phase.VmStarting? || s.phase.NotStarted?)
  }

  lemma OrphaningSteps(c: Config, t: Time)
    ensures var turn := StartTwice(t).turns[0];
            var s0 := Initial(c, t);
            var s1 := Step(c, s0, turn.requests[0]);
            && Enabled(s0, turn.requests[0]) && Enabled(s1, turn.requests[1])
            && TwoVms(Step(c, s1, turn.requests[1]), t)
  {}

  lemma OrphaningRequests(r: Run)
    ensures var requests := StartTwice(r.start).turns[0].requests;
            Legal(r, requests) && TwoVms(After(r, requests), r.start)
  {
    hide Step, Enabled, Tally, Initial, TwoVms;
    var turn := StartTwice(r.start).turns[0];
    var e1, e2 := turn.requests[0], turn.requests[1];
    OrphaningSteps(r.config, r.start);
    assert Legal(r, []) && After(r, []) == Initial(r.config, r.start);
    hide After, Legal;
    Extend(r, [], e1);
    assert [] + [e1] == [e1];
    Extend(r, [e1], e2);
    assert [e1] + [e2] == turn.requests;
  }

  lemma OrphanAtShutdown(c: Config, s: State, t: Time, s': State)
    requires TwoVms(s, t) && Tended(c, s, t, NotInstalled, false, s')
    ensures var e := Event(t, Shutdown, t);
            Enabled(s', e) && !Step(c, s', e).serving && !Accounted(Step(c, s', e))
  {
    assert 1 in Step(c, s', Event(t, Shutdown, t)).procs.Unreaped();
  }

  /**
   With start commands children can be lost: in every configuration a client that sends `start_vm`
   twice leaves a child that even shutdown does not stop.
   */
  lemma StartingTwiceOrphans(r: Run)
    ensures exists session: Session ::
              && Legal(r, session.Events()) && session.Follows(r, [])
              && !After(r, session.Events()).serving && !Accounted(After(r, session.Events()))
  {
    hide Step, Enabled, Accounted, Tended, Tally, After, Legal, Flatten, TakesTurns;
    var t, session := r.start, StartTwice(r.start);
    var turn := session.turns[0];
    var h := turn.requests;
    OrphaningRequests(r);
    Tend(r, h, t, NotInstalled, false);
    var h' := h + [turn.advance] + [turn.check] + [turn.reset];
    OrphanAtShutdown(r.config, After(r, h), t, After(r, h'));
    Extend(r, h', session.shutdown);
    OneTurn(r, turn);
    assert turn.Events() == h';
    assert session.Events() == h' + [session.shutdown];
  }

  lemma OneTurn(r: Run, turn: Turn)
    requires turn.InOrder() && turn.reaps == []
    ensures Flatten([turn]) == turn.Events() && TakesTurns(r, [], [turn])
  {
    hide After, Turn.Events, Turn.InOrder;
    assert [] + [turn] == [turn];
    assert Flatten([]) == [] && TakesTurns(r, [], []);
    assert Drains(r, [] + Flatten([]), turn.reaps);
    LoopsExtend(r, [], [], turn);
    assert [] + turn.Events() == turn.Events();
  }
}
