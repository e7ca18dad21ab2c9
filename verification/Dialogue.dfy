/**
 What the daemon asks of its environment.  A step of the protocol carries the answers it was given;
 here is which of them it asks for, and the proof that it depends on nothing it does not ask for.
 */
module Dialogue {
  import opened Basics
  import opened Processes
  import opened Managers
  import opened Protocol
  import opened Host
  import opened Ownership
  import opened Cadence
  import Recovery
  import Health

  function DeathQuestions(s: State, p: Pid, o: SpawnOutcome): seq<Question> {
    if !s.vm.OwnsPid(p) && s.ca.OwnsPid(p) && s.ca.crashes + 1 < MAX_CRASHES then StartQuestions(o) else []
  }

  function CommandQuestions(cmd: Command): seq<Question> {
    match cmd
    case StartAll(o) => StartQuestions(o)
    case StartVm(o) => StartQuestions(o)
    case StartCa(o) => StartQuestions(o)
    case _ => []
  }

  function AdvanceQuestions(s: State, at: Time, o: SpawnOutcome, answer: bool): seq<Question> {
    match s.phase
    case VmStarting => StartQuestions(o)
    case WaitingVsock(deadline, _, delayDone) => if delayDone && at <= deadline then [VsockProbe(answer)] else []
    case CaStarting => StartQuestions(o)
    case WaitingCaPort(_) => [PortProbe(answer)]
    case _ => []
  }

  function HealthQuestions(c: Config, s: State, at: Time, out: Health.Outcome, o: SpawnOutcome): seq<Question> {
    if !HealthDue(c, s, at) || !Probed(s) then []
    else [Connected(out)] +
         if Health.Probe(c.failThreshold, s.counters, out).1.RestartNeeded? then StartQuestions(o) else []
  }

  /** The questions of one step, with their answers, in order. */
  function Asks(c: Config, s: State, e: Event): seq<Question> {
    match e.action
    case Reap(p, o) => DeathQuestions(s, p, o)
    case Handle(cmd) => CommandQuestions(cmd)
    case Advance(o, answer) => AdvanceQuestions(s, e.at, o, answer)
    case HealthCheck(out, o) => HealthQuestions(c, s, e.at, out, o)
    case _ => []
  }

  /** All questions of a history. */
  function Asked(r: Run, h: seq<Event>): seq<Question> {
    if h == [] then []
    else Asked(r, h[..|h| - 1]) + Asks(r.config, After(r, h[..|h| - 1]), h[|h| - 1])
  }

  lemma AskedExtend(r: Run, h: seq<Event>, e: Event)
    ensures Asked(r, h + [e]) == Asked(r, h) + Asks(r.config, After(r, h), e)
  {
    assert (h + [e])[..|h|] == h;
  }

  // ---------------------------------------------------------------- only what is asked matters

  /** The same step as far as the daemon decides; the environment may answer differently. */
  predicate SameBut(e: Event, e': Event) {
    && e.at == e'.at && e.until == e'.until
    && match (e.action, e'.action)
       case (Exits(ps), Exits(ps')) => ps == ps'
       case (Reap(p, _), Reap(p', _)) => p == p'
       case (Handle(c), Handle(c')) =>
         && c.StartAll? == c'.StartAll? && c.StopAll? == c'.StopAll?
         && c.StartVm? == c'.StartVm? && c.StopVm? == c'.StopVm?
         && c.StartCa? == c'.StartCa? && c.StopCa? == c'.StopCa?
       case (Advance(_, _), Advance(_, _)) => true
       case (HealthCheck(_, _), HealthCheck(_, _)) => true
       case (ResetCounts, ResetCounts) => true
       case (Shutdown, Shutdown) => true
       case _ => false
  }

  lemma SameAnswersSameStart(o: SpawnOutcome, o': SpawnOutcome)
    requires StartQuestions(o) == StartQuestions(o')
    ensures o == o'
  {
    if o.Spawned? && o'.Spawned? {
      assert StartQuestions(o)[1] == StartQuestions(o')[1];
    } else if !o.NotInstalled? && !o'.NotInstalled? {
      assert StartQuestions(o)[1] == StartQuestions(o')[1];
    } else {
      assert StartQuestions(o)[0] == StartQuestions(o')[0];
    }
  }

  /**
   A step depends on its environment only through the questions it asks: if they and their answers
   are the same, so is the outcome of the step.
   */
  lemma StepFollowsAnswers(r: Run, h: seq<Event>, e: Event, e': Event)
    requires Legal(r, h + [e]) && Legal(r, h + [e']) && SameBut(e, e')
    requires Asks(r.config, After(r, h), e) == Asks(r.config, After(r, h), e')
    ensures After(r, h + [e]) == After(r, h + [e'])
  {
    hide Step, Asks, Legal, Sound;
    Extend(r, h, e);
    Extend(r, h, e');
    ReachableSound(r, h);
    SameAnswersSameStep(r.config, After(r, h), e, e');
  }

  lemma SameAnswersSameStep(c: Config, s: State, e: Event, e': Event)
    requires Sound(s) && SameBut(e, e') && Asks(c, s, e) == Asks(c, s, e')
    ensures Step(c, s, e) == Step(c, s, e')
  {
    hide StartQuestions;
    match e.action {
      case HealthCheck(out, o) =>
        var out', o' := e'.action.outcome, e'.action.respawn;
        if HealthDue(c, s, e.at) && Probed(s) {
          assert Asks(c, s, e)[0] == Asks(c, s, e')[0];
          if Health.Probe(c.failThreshold, s.counters, out).1.RestartNeeded? {
            assert Asks(c, s, e)[1..] == StartQuestions(o) && Asks(c, s, e')[1..] == StartQuestions(o');
            SameAnswersSameStart(o, o');
          }
        }
      case Reap(p, o) =>
        if !s.vm.OwnsPid(p) && s.ca.OwnsPid(p) && s.ca.crashes + 1 < MAX_CRASHES {
          SameAnswersSameStart(o, e'.action.respawn);
        }
      case Handle(cmd) =>
        if cmd.StartCa? {
          SameAnswersSameStart(cmd.caOutcome, e'.action.command.caOutcome);
        } else if cmd.StartAll? || cmd.StartVm? {
          SameAnswersSameStart(cmd.vmOutcome, e'.action.command.vmOutcome);
        }
      case Advance(o, answer) =>
        if s.phase.VmStarting? || s.phase.CaStarting? {
          SameAnswersSameStart(o, e'.action.spawn);
        } else if Asks(c, s, e) != [] {
          assert Asks(c, s, e)[0] == Asks(c, s, e')[0];
        }
      case _ =>
    }
  }

  // ---------------------------------------------------------------- and what matters is asked, no more

  lemma ProbesMatter(c: Config, s: State, e: Event)
    requires Sound(s) && e.action.Advance?
    requires !s.vm.stage.Ready? || !s.phase.WaitingVsock?
    requires !s.ca.stage.Ready? || !s.phase.WaitingCaPort?
    ensures var yes, no := e.(action := e.action.(answer := true)), e.(action := e.action.(answer := false));
            Step(c, s, yes) != Step(c, s, no) <==>
              Asks(c, s, e) in {[VsockProbe(e.action.answer)], [PortProbe(e.action.answer)]}
  {}

  /** A startup step probes exactly if the answer makes a difference. */
  lemma ProbesExactlyWhenItMatters(r: Run, h: seq<Event>, e: Event)
    requires Legal(r, h + [e]) && e.action.Advance?
    ensures var s := After(r, h);
            var yes, no := e.(action := e.action.(answer := true)), e.(action := e.action.(answer := false));
            Step(r.config, s, yes) != Step(r.config, s, no) <==>
              Asks(r.config, s, e) in {[VsockProbe(e.action.answer)], [PortProbe(e.action.answer)]}
  {
    hide Step, Asks, Sound;
    Extend(r, h, e);
    ReachableSound(r, h);
    Recovery.ReadinessFollowsStartup(r, h);
    ProbesMatter(r.config, After(r, h), e);
  }

  /** A health check connects to the CA exactly if it is made. */
  lemma ConnectsExactlyWhenMade(r: Run, h: seq<Event>, e: Event)
    requires Legal(r, h + [e]) && e.action.HealthCheck?
    ensures if CheckMade(r, h, e) then [Connected(e.action.outcome)] <= Asks(r.config, After(r, h), e)
            else Asks(r.config, After(r, h), e) == []
  {
    hide Step, After, Outcomes, LastCheck, Legal, Tally, StartQuestions, Health.Probe, Enabled;
    Extend(r, h, e);
    MonitorSeesOutcomes(r, h);
  }
}
