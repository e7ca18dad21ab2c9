/**
 The daemon itself: the main loop, the reap loop and the IPC server as they run, on objects that
 are updated in place.  A ghost history records what happened; `Valid` says that the objects are in
 the state to which the protocol brings that history, so every theorem about legal histories is a
 theorem about this program.
 */
module Daemons {
  import opened Basics
  import opened Processes
  import opened Managers
  import opened Protocol
  import opened Host
  import opened Ipc
  import opened Ownership
  import opened Recovery
  import opened Cadence
  import opened Loops
  import opened Startup
  import opened Dialogue
  import Health
  import Utf8

  /** What a request line asks for, once parsed. */
  datatype Request = DoStartAll | DoStopAll | DoStartVm | DoStopVm | DoStartCa | DoStopCa | Query | Unknown | Malformed

  /** The command that serving the request amounts to. */
  predicate Serves(q: Request, cmd: Command) {
    match q
    case DoStartAll => cmd.StartAll?
    case DoStopAll => cmd.StopAll?
    case DoStartVm => cmd.StartVm?
    case DoStopVm => cmd.StopVm?
    case DoStartCa => cmd.StartCa?
    case DoStopCa => cmd.StopCa?
    case _ => cmd.Inert?
  }

  function Other(w: Which): Which { if w.Vm? then Ca else Vm }

  /** Commands leave everything but the managers, the children and the clock alone. */
  predicate SameElse(s: State, s': State) {
    s' == s.(vm := s'.vm, ca := s'.ca, procs := s'.procs, clock := s'.clock)
  }

  /** A start was asked for: the answer is `ok` exactly if manager `w` gained a child. */
  predicate StartedAs(w: Which, ok: bool, s: State, s': State) {
    && (ok <==> Gains(s, s', w))
    && s'.Of(Other(w)) == s.Of(Other(w))
    && s'.Of(w).crashes == s.Of(w).crashes && s'.Of(w).readySince == s.Of(w).readySince
    && (ok ==> s'.Of(w).stage.Up? && s'.procs == s.procs.(running := s.procs.running + {s'.Of(w).pid.value}))
    && (!ok ==> s'.Of(w).pid == s.Of(w).pid && s'.procs == s.procs)
  }

  /** The children of the managers in `ws`. */
  function ChildrenOf(s: State, ws: set<Which>): set<Pid> {
    (if Vm in ws && s.vm.pid.Some? then {s.vm.pid.value} else {})
    + (if Ca in ws && s.ca.pid.Some? then {s.ca.pid.value} else {})
  }

  /** The managers in `ws` were stopped: they are idle, and their children have been told to terminate. */
  predicate StoppedAll(ws: set<Which>, s: State, s': State) {
    && (forall w :: w in ws ==> s'.Of(w) == Status(Idle, None, s.Of(w).crashes, None))
    && (forall w :: w !in ws ==> s'.Of(w) == s.Of(w))
    && s'.procs == s.procs.(condemned := s.procs.condemned + ChildrenOf(s, ws))
  }

  /** What serving a request did, and whether the reply says `ok`. */
  predicate Fulfils(q: Request, ok: bool, s: State, s': State) {
    && SameElse(s, s')
    && match q
       case DoStartAll => StartedAs(Vm, ok, s, s')
       case DoStartVm => StartedAs(Vm, ok, s, s')
       case DoStartCa => StartedAs(Ca, ok, s, s')
       case DoStopAll => ok && StoppedAll({Vm, Ca}, s, s')
       case DoStopVm => ok && StoppedAll({Vm}, s, s')
       case DoStopCa => ok && StoppedAll({Ca}, s, s')
       case Query => ok && s' == s.(clock := s'.clock)
       case _ => !ok && s' == s.(clock := s'.clock)
  }

  datatype Reply = Reply(line: seq<Byte>, ok: bool)

  /** Recording one more step of the protocol. */
  lemma Recorded(r: Run, h: seq<Event>, e: Event, s: State, s': State)
    requires Legal(r, h) && After(r, h) == s && Enabled(s, e) && s' == Step(r.config, s, e)
    ensures Legal(r, h + [e]) && After(r, h + [e]) == s'
    ensures Asked(r, h + [e]) == Asked(r, h) + Asks(r.config, s, e)
  {
    hide Step, Enabled, Asks, Asked;
    Extend(r, h, e);
    AskedExtend(r, h, e);
  }

  lemma ExitStep(c: Config, s: State, ps: set<Pid>)
    ensures var e := Event(s.clock, Exits(ps), s.clock);
            && Step(c, s, e) == s.(procs := s.procs.Exit(ps)) && Asks(c, s, e) == []
            && (ps <= s.procs.running ==> Enabled(s, e))
  {}

  lemma ReapStep(c: Config, s: State, p: Pid, o: SpawnOutcome)
    ensures var e := Event(s.clock, Reap(p, o), s.clock);
            && Step(c, s, e) == ChildDeath(s.(procs := s.procs.Collect(p)), p, s.clock, o)
            && Asks(c, s, e) == DeathQuestions(s, p, o)
            && (s.serving && p in s.procs.zombies && s.procs.Collect(p).Allows(o) ==> Enabled(s, e))
  {}

  lemma AdvanceStep(c: Config, s: State, e: Event)
    requires e.action.Advance?
    ensures Step(c, s, e) ==
            Protocol.AdvanceStartup(c, s.(clock := e.until), e.at, e.until, e.action.spawn, e.action.answer)
    ensures Asks(c, s, e) == AdvanceQuestions(s, e.at, e.action.spawn, e.action.answer)
    ensures s.serving && s.clock <= e.at <= e.until && s.procs.Allows(e.action.spawn) ==> Enabled(s, e)
  {}

  lemma HealthStep(c: Config, s: State, e: Event)
    requires e.action.HealthCheck?
    ensures Step(c, s, e) == CheckHealth(c, s.(clock := e.until), e.at, e.until, e.action.outcome, e.action.respawn)
    ensures Asks(c, s, e) == HealthQuestions(c, s, e.at, e.action.outcome, e.action.respawn)
    ensures s.serving && s.clock <= e.at <= e.until && s.procs.Allows(e.action.respawn) ==> Enabled(s, e)
  {}

  predicate CommandAllowed(procs: Procs, cmd: Command) {
    match cmd
    case StartAll(o) => procs.Allows(o)
    case StartVm(o) => procs.Allows(o)
    case StartCa(o) => procs.Allows(o)
    case _ => true
  }

  lemma HandleStep(c: Config, s: State, e: Event)
    requires e.action.Handle?
    ensures Step(c, s, e) == Dispatch(s, e.action.command).(clock := e.until)
    ensures Asks(c, s, e) == CommandQuestions(e.action.command)
    ensures s.serving && s.clock <= e.at <= e.until && CommandAllowed(s.procs, e.action.command) ==> Enabled(s, e)
  {}

  /** Step `k` of the history serves the request of the reply, and the reply reports what it did. */
  predicate Served(r: Run, parse: seq<Byte> -> Request, reply: Reply, h: seq<Event>, k: nat)
    requires k < |h|
  {
    && h[k].action.Handle? && Serves(parse(reply.line), h[k].action.command)
    && Fulfils(parse(reply.line), reply.ok, After(r, h[..k]), After(r, h[..k + 1]))
  }

  /** The steps of the history from the `n`th on serve the requests of the replies, one each, in order. */
  predicate AllServed(r: Run, parse: seq<Byte> -> Request, replies: seq<Reply>, h: seq<Event>, n: nat) {
    && |h| == n + |replies|
    && (forall i :: 0 <= i < |replies| ==> Served(r, parse, replies[i], h, n + i))
  }

  lemma AllServedAppend(r: Run, parse: seq<Byte> -> Request, replies: seq<Reply>, h: seq<Event>, n: nat,
                        reply: Reply, h': seq<Event>)
    requires h < h' && |h'| == |h| + 1
    requires AllServed(r, parse, replies, h, n) && Served(r, parse, reply, h', |h|)
    ensures AllServed(r, parse, replies + [reply], h', n)
  {
    hide After, Fulfils, Serves;
    forall i | 0 <= i < |replies|
      ensures Served(r, parse, (replies + [reply])[i], h', n + i)
    {
      assert Served(r, parse, replies[i], h, n + i);
      assert h'[..n + i] == h[..n + i] && h'[..n + i + 1] == h[..n + i + 1];
    }
  }

  /** A reply that cannot be written ends the connection, unless it was to a malformed request. */
  predicate Drops(parse: seq<Byte> -> Request, reply: Reply, written: bool) {
    !written && parse(reply.line) != Malformed
  }

  /**
   The replies answer the requests, in order and one each, up to the first that drops the
   connection; `writes` says which of them could be written.
   */
  predicate Attended(parse: seq<Byte> -> Request, requests: seq<seq<Byte>>, replies: seq<Reply>, writes: seq<bool>) {
    && |writes| == |replies| && LinesOf(replies) <= requests
    && (forall i :: 0 <= i < |replies| - 1 ==> !Drops(parse, replies[i], writes[i]))
    && (|replies| < |requests| ==>
          replies != [] && Drops(parse, replies[|replies| - 1], writes[|replies| - 1]))
  }

  function LinesOf(replies: seq<Reply>): seq<seq<Byte>> {
    seq(|replies|, i requires 0 <= i < |replies| => replies[i].line)
  }

  lemma NothingServed(r: Run, parse: seq<Byte> -> Request, h: seq<Event>)
    ensures LinesOf([]) == [] && AllServed(r, parse, [], h, |h|)
  {}

  lemma LinesOfAppend(replies: seq<Reply>, reply: Reply, rest: seq<seq<Byte>>)
    ensures LinesOf(replies + [reply]) + rest == LinesOf(replies) + ([reply.line] + rest)
  {}

  /** The steps `es` after history `h` serve the requests of the client, if there is one, and are nothing else. */
  ghost predicate Answers(r: Run, parse: seq<Byte> -> Request, client: Option<Stream>, h: seq<Event>, es: seq<Event>)
    reads if client.Some? then {client.value} else {}
  {
    match client
    case None => es == []
    case Some(stream) =>
      exists replies :: AllServed(r, parse, replies, h + es, |h|)
                        && Attended(parse, Requests(stream.bytes, stream.ending, Utf8.Valid), replies, stream.writes)
  }

  lemma AnswersAreCommands(r: Run, parse: seq<Byte> -> Request, client: Option<Stream>, h: seq<Event>, es: seq<Event>)
    requires Answers(r, parse, client, h, es)
    ensures Commands(es)
  {
    hide After, Fulfils, Attended;
    if client.Some? {
      var replies :| AllServed(r, parse, replies, h + es, |h|);
      forall i | 0 <= i < |es|
        ensures es[i].action.Handle?
      {
        assert Served(r, parse, replies[i], h + es, |h| + i) && (h + es)[|h| + i] == es[i];
      }
    }
  }

  /** The notices of a run of turns: a death exactly where children were collected, and no shutdown. */
  function Noticed(ts: seq<Turn>): seq<Notice> {
    seq(|ts|, i requires 0 <= i < |ts| => Notice(ts[i].reaps != [], false))
  }

  lemma NoticedAppend(ts: seq<Turn>, t: Turn)
    ensures Noticed(ts + [t]) == Noticed(ts) + [Notice(t.reaps != [], false)]
  {}

  /** Every turn after history `h` served its client. */
  ghost predicate AllAnswered(r: Run, parse: seq<Byte> -> Request, clients: seq<Option<Stream>>, h: seq<Event>,
                              ts: seq<Turn>)
    reads set i | 0 <= i < |clients| && clients[i].Some? :: clients[i].value
  {
    && |clients| == |ts|
    && forall i :: 0 <= i < |ts| ==>
         Answers(r, parse, clients[i], h + Flatten(ts[..i]) + ts[i].reaps, ts[i].requests)
  }

  lemma AnsweredAppend(r: Run, parse: seq<Byte> -> Request, clients: seq<Option<Stream>>, h: seq<Event>, ts: seq<Turn>,
                       client: Option<Stream>, t: Turn)
    requires AllAnswered(r, parse, clients, h, ts)
    requires Answers(r, parse, client, h + Flatten(ts) + t.reaps, t.requests)
    ensures AllAnswered(r, parse, clients + [client], h, ts + [t])
  {
    hide Answers, Flatten;
    var ts', clients' := ts + [t], clients + [client];
    forall i | 0 <= i < |ts'|
      ensures Answers(r, parse, clients'[i], h + Flatten(ts'[..i]) + ts'[i].reaps, ts'[i].requests)
    {
      assert i < |ts| ==> ts'[..i] == ts[..i];
      assert i == |ts| ==> ts'[..i] == ts;
    }
  }

  lemma NothingNoticed(r: Run, parse: seq<Byte> -> Request, h: seq<Event>)
    ensures Noticed([]) == [] && AllAnswered(r, parse, [], h, [])
  {}

  /** The connection is still up after these replies. */
  predicate Ongoing(parse: seq<Byte> -> Request, replies: seq<Reply>, writes: seq<bool>) {
    |writes| == |replies| && forall i :: 0 <= i < |replies| ==> !Drops(parse, replies[i], writes[i])
  }

  /** One more reply: it keeps the connection up, or is the last. */
  lemma Replied(parse: seq<Byte> -> Request, replies: seq<Reply>, writes: seq<bool>, reply: Reply, written: bool,
                later: seq<seq<Byte>>)
    requires Ongoing(parse, replies, writes)
    ensures var replies', writes' := replies + [reply], writes + [written];
            if Drops(parse, reply, written) then Attended(parse, LinesOf(replies') + later, replies', writes')
            else Ongoing(parse, replies', writes')
    ensures Drops(parse, reply, written) <==> !written && parse(reply.line) != Malformed
  {}

  lemma AllReplied(parse: seq<Byte> -> Request, replies: seq<Reply>, writes: seq<bool>)
    requires Ongoing(parse, replies, writes)
    ensures Attended(parse, LinesOf(replies) + [], replies, writes)
  {}

  lemma NobodyReplied(parse: seq<Byte> -> Request)
    ensures Ongoing(parse, [], [])
  {}

  lemma NoKills(grace: nat)
    ensures KillCalls([], None, grace)
  {}

  lemma RequestsStep(b: seq<Byte>, ending: Ending)
    requires Delivers(b, ending, Utf8.Valid)
    ensures ReadSize(b) >= 1
    ensures var line, rest := Trim(b[..ReadSize(b)]), Requests(b[ReadSize(b)..], ending, Utf8.Valid);
            Requests(b, ending, Utf8.Valid) == if line == [] then rest else [line] + rest
  {
    hide ReadSize, Trim;
  }

  lemma RequestsDone(b: seq<Byte>, ending: Ending)
    requires !Delivers(b, ending, Utf8.Valid)
    ensures Requests(b, ending, Utf8.Valid) == []
  {}

  lemma NoTurnsYet(r: Run, h: seq<Event>)
    ensures TakesTurns(r, h, []) && Flatten([]) == []
  {}

  lemma NoEventsYet()
    ensures Collecting([]) && ReapCall([])
  {}

  /** A turn of the reap loop, which began at step `n`, adds an exit and a collection, or a last exit. */
  lemma CollectingStep(h: seq<Event>, n: nat, h': seq<Event>)
    requires n <= |h| && h < h' && Collecting(h[n..]) && h'[|h|].action.Exits?
    ensures |h'| == |h| + 1 ==> ReapCall(h'[n..])
    ensures |h'| == |h| + 2 && h'[|h| + 1].action.Reap? ==> Collecting(h'[n..])
  {
    assert h'[n..][..|h| - n] == h[n..];
  }

  /** A restart uses up one of the crashes that are left. */
  lemma RestartStep(r: Run, h: seq<Event>, e: Event)
    requires Legal(r, h + [e]) && (e.action.Reap? || e.action.Exits?)
    ensures Tally(r, h + [e], RestartsCa()) + Monus(RESTARTS, After(r, h + [e]).ca.crashes)
            <= Tally(r, h, RestartsCa()) + Monus(RESTARTS, After(r, h).ca.crashes)
  {
    hide Step;
    Extend(r, h, e);
    ReachableSound(r, h);
    CaMoves(r.config, After(r, h), e);
  }

  /** Health restarts, times what each costs in probes, fit in the health intervals since the start. */
  predicate KeepsHealthRate(r: Run, h: seq<Event>) {
    r.config.healthInterval >= 1 ==>
      && r.start <= After(r, h).clock
      && Tally(r, h, HealthRestarts(r.config)) * Health.Price(r.config.failThreshold)
         <= (After(r, h).clock - r.start) / (r.config.healthInterval * SECOND)
  }

  /** What holds of every run of the daemon. */
  lemma RunGuarantees(r: Run, h: seq<Event>)
    requires Legal(r, h)
    ensures Sound(After(r, h))
    ensures Tally(r, h, RestartsCa()) <= 8 && Tally(r, h, BecomesReady(Ca)) <= 1
    ensures KeepsHealthRate(r, h)
  {
    hide After, Tally, Legal, Step, Sound;
    ReachableSound(r, h);
    LifetimeRestartBudget(r, h);
    ReadyAtMostOnce(r, h, Ca);
    if r.config.healthInterval >= 1 {
      HealthRestartRate(r, h);
    }
  }

  class Daemon {
    const config: Config
    const kernel: Kernel
    const pipe: SignalPipe
    const listener: Listener
    const vm: Manager
    const ca: Manager
    const health: Health.HealthMonitor
    const parse: seq<Byte> -> Request
    var phase: Phase
    var lastHealth: Time
    var serving: bool
    ghost const start: Time
    ghost var history: seq<Event>

    ghost function Abs(): State
      reads this, kernel, vm, ca, health
    {
      State(vm.Value(), ca.Value(), phase, health.Value(), lastHealth, kernel.clock, kernel.procs, serving)
    }

    ghost function TheRun(): Run { Run(config, start) }

    ghost predicate Valid()
      reads this, kernel, vm, ca, health
    {
      && vm != ca && health.failThreshold == config.failThreshold
      && Legal(TheRun(), history) && After(TheRun(), history) == Abs()
      && kernel.asked == Asked(TheRun(), history)
    }

    constructor (config: Config, kernel: Kernel, pipe: SignalPipe, listener: Listener, parse: seq<Byte> -> Request)
      requires kernel.procs == NO_CHILDREN && kernel.asked == []
      ensures Valid() && history == [] && serving && fresh(vm) && fresh(ca) && fresh(health)
      ensures this.config == config && this.kernel == kernel && this.parse == parse
      ensures this.pipe == pipe && this.listener == listener
    {
      this.config, this.kernel, this.pipe, this.listener, this.parse := config, kernel, pipe, listener, parse;
      vm := new Manager();
      ca := new Manager();
      health := new Health.HealthMonitor(config.failThreshold);
      phase := if config.autoStart then VmStarting else NotStarted;
      lastHealth := kernel.clock;
      start := kernel.clock;
      serving := true;
      history := [];
    }

    // -------------------------------------------------------------- reaping

    method HandleChildDeath(pid: Pid) returns (o: SpawnOutcome)
      requires vm != ca
      modifies kernel`procs, kernel`clock, kernel`asked, vm, ca
      ensures kernel.clock == old(kernel.clock)
      ensures old(kernel.procs).Allows(o)
      ensures kernel.asked == old(kernel.asked) + DeathQuestions(old(Abs()), pid, o)
      ensures Abs() == ChildDeath(old(Abs()), pid, kernel.clock, o)
    {
      o := NotInstalled;
      if vm.OwnsPid(pid) {
        vm.MarkDead();
        if vm.crashCount >= MAX_CRASHES {
          vm.SetState(Error, kernel);
        }
      } else if ca.OwnsPid(pid) {
        ca.MarkDead();
        if ca.crashCount < MAX_CRASHES {
          o := ca.Start(kernel);
        } else {
          ca.SetState(Error, kernel);
        }
      }
    }

    /** One turn of the reap loop: collect a child, if there is a zombie, and handle its death. */
    method CollectOne() returns (collected: bool)
      requires Valid() && serving
      modifies this`history, kernel`procs, kernel`departed, kernel`clock, kernel`asked, vm, ca
      ensures Valid() && kernel.clock == old(kernel.clock)
      ensures old(history) < history && history[|old(history)|].action.Exits?
      ensures |history| == |old(history)| + (if collected then 2 else 1)
      ensures if collected then history[|old(history)| + 1].action.Reap? else kernel.procs.zombies == {}
      ensures kernel.departed == {}
      ensures collected ==> ReapBound(Abs()) < old(ReapBound(Abs()))
      ensures Tally(TheRun(), history, RestartsCa()) + Monus(RESTARTS, ca.crashCount)
              <= old(Tally(TheRun(), history, RestartsCa()) + Monus(RESTARTS, ca.crashCount))
    {
      hide After, Tally, Legal, ChildDeath, Sound, Step, Enabled, ReapBound, Asks, Asked, StartQuestions;
      ghost var h0, s0 := history, Abs();
      ReachableSound(TheRun(), h0);
      var r, exited := kernel.WaitPid();
      ghost var exit := Event(kernel.clock, Exits(exited), kernel.clock);
      ghost var s1 := s0.(procs := s0.procs.Exit(exited));
      ExitStep(config, s0, exited);
      Recorded(TheRun(), h0, exit, s0, s1);
      ReachableSound(TheRun(), h0 + [exit]);
      RestartStep(TheRun(), h0, exit);
      ExitKeepsBound(config, s0, exit);
      history := h0 + [exit];
      collected := r.Some?;
      if r.Some? {
        var o := HandleChildDeath(r.value);
        ghost var reap := Event(kernel.clock, Reap(r.value, o), kernel.clock);
        ReapStep(config, s1, r.value, o);
        Recorded(TheRun(), history, reap, s1, Abs());
        RestartStep(TheRun(), history, reap);
        ReapProgress(config, s1, reap);
        history := history + [reap];
      }
    }

    /**
     The reap loop.  It ends although every respawned CA may die at once, it restarts at most four
     CAs, fewer if crashes are on the count already, and it leaves no zombie behind.
     */
    method ReapChildren() returns (reapedAny: bool)
      requires Valid() && serving
      modifies this`history, kernel`procs, kernel`departed, kernel`clock, kernel`asked, vm, ca
      ensures Valid() && kernel.clock == old(kernel.clock)
      ensures old(history) <= history && ReapCall(history[|old(history)|..])
      ensures kernel.procs.zombies == {} && kernel.departed == {}
      ensures history != old(history) && (reapedAny <==> |history| > |old(history)| + 1)
      ensures Tally(TheRun(), history, RestartsCa())
              <= old(Tally(TheRun(), history, RestartsCa())) + Monus(RESTARTS, old(ca.crashCount))
    {
      hide After, Tally, Legal, ReapBound, Collecting, ReapCall;
      reapedAny := false;
      var more := true;
      ghost var n := |history|;
      NoEventsYet();
      assert history[n..] == [];
      while more
        invariant Valid() && kernel.clock == old(kernel.clock) && old(history) <= history
        invariant if more then Collecting(history[n..]) else ReapCall(history[n..]) && kernel.procs.zombies == {}
        invariant !more ==> kernel.departed == {} && |history| > n
        invariant reapedAny <==> |history| > n + if more then 0 else 1
        invariant Tally(TheRun(), history, RestartsCa()) + Monus(RESTARTS, ca.crashCount)
                  <= old(Tally(TheRun(), history, RestartsCa()) + Monus(RESTARTS, ca.crashCount))
        decreases more, ReapBound(Abs())
      {
        ghost var h := history;
        more := CollectOne();
        CollectingStep(h, n, history);
        reapedAny := reapedAny || more;
      }
    }

    // -------------------------------------------------------------- startup

    /** The phases that bring up the VM; `at` is the reading compared with a deadline. */
    method AdvanceVm() returns (ghost at: Time, o: SpawnOutcome, answer: bool)
      requires vm != ca && (phase.VmStarting? || phase.WaitingVsock?)
      modifies this`phase, kernel, vm
      ensures old(kernel.clock) <= at <= kernel.clock && old(kernel.procs).Allows(o)
      ensures Quiet(old(Abs())) ==>
              Abs() == Protocol.AdvanceStartup(config, old(Abs()).(clock := kernel.clock), at, kernel.clock, o, answer)
      ensures Quiet(old(Abs())) ==> kernel.asked == old(kernel.asked) + AdvanceQuestions(old(Abs()), at, o, answer)
    {
      at, o, answer := kernel.clock, NotInstalled, false;
      match phase {
        case VmStarting =>
          o := vm.Start(kernel);
          if o.Spawned? {
            var now := kernel.Now();
            at := now;
            phase := WaitingVsock(VsockDeadline(config, now), now, false);
          } else {
            phase := Failed(VmStart);
          }
        case WaitingVsock(deadline, bootStart, delayDone) =>
          var now := kernel.Now();
          at := now;
          if !delayDone {
            if now >= bootStart + config.probeDelay * SECOND {
              phase := WaitingVsock(deadline, bootStart, true);
            }
          } else if now > deadline {
            phase := Failed(VsockTimeout);
          } else {
            answer := kernel.ProbeVsock();
            if answer {
              vm.SetState(Ready, kernel);
              phase := CaStarting;
            }
          }
      }
    }

    /** The phases that bring up the CA. */
    method AdvanceCa() returns (ghost at: Time, o: SpawnOutcome, answer: bool)
      requires vm != ca && (phase.CaStarting? || phase.WaitingCaPort?)
      modifies this`phase, kernel, ca
      ensures old(kernel.clock) <= at <= kernel.clock && old(kernel.procs).Allows(o)
      ensures Quiet(old(Abs())) ==>
              Abs() == Protocol.AdvanceStartup(config, old(Abs()).(clock := kernel.clock), at, kernel.clock, o, answer)
      ensures Quiet(old(Abs())) ==> kernel.asked == old(kernel.asked) + AdvanceQuestions(old(Abs()), at, o, answer)
    {
      at, o, answer := kernel.clock, NotInstalled, false;
      match phase {
        case CaStarting =>
          o := ca.Start(kernel);
          if o.Spawned? {
            var now := kernel.Now();
            at := now;
            phase := WaitingCaPort(now + config.caTimeout * SECOND);
          } else {
            phase := Failed(CaStart);
          }
        case WaitingCaPort(deadline) =>
          answer := kernel.ProbePort();
          if answer {
            ca.SetState(Ready, kernel);
            phase := Complete;
          } else {
            var now := kernel.Now();
            at := now;
            if now > deadline {
              phase := Complete;
            }
          }
      }
    }

    /** `advance_startup`, including the recovery branches that a reachable state never takes. */
    method AdvancePhase() returns (ghost at: Time, o: SpawnOutcome, answer: bool)
      requires vm != ca
      modifies this`phase, kernel, vm, ca
      ensures old(kernel.clock) <= at <= kernel.clock && old(kernel.procs).Allows(o)
      ensures Quiet(old(Abs())) ==>
              Abs() == Protocol.AdvanceStartup(config, old(Abs()).(clock := kernel.clock), at, kernel.clock, o, answer)
      ensures Quiet(old(Abs())) ==> kernel.asked == old(kernel.asked) + AdvanceQuestions(old(Abs()), at, o, answer)
    {
      at, o, answer := kernel.clock, NotInstalled, false;
      var vmDead := vm.IsDead(kernel);
      if vmDead && !phase.Terminal() {
        phase := if vm.crashCount < MAX_CRASHES then VmStarting else Failed(VmCrashed);
        return;
      }
      var caDead := ca.IsDead(kernel);
      if caDead && phase.WaitingCaPort? {
        phase := if ca.crashCount < MAX_CRASHES then CaStarting else Failed(CaCrashed);
        return;
      }
      if phase.VmStarting? || phase.WaitingVsock? {
        at, o, answer := AdvanceVm();
      } else if phase.CaStarting? || phase.WaitingCaPort? {
        at, o, answer := AdvanceCa();
      }
    }

    method AdvanceStartup()
      requires Valid() && serving
      modifies this`phase, this`history, kernel, vm, ca
      ensures Valid() && |history| == |old(history)| + 1 && old(history) < history
      ensures history[|old(history)|].action.Advance?
    {
      hide After, Legal, Step, Owned, Quiet, Asks, Asked, AdvanceQuestions;
      ghost var h, s := history, Abs();
      ReachableSound(TheRun(), h);
      var at, o, answer := AdvancePhase();
      ghost var e := Event(at, Advance(o, answer), kernel.clock);
      AdvanceStep(config, s, e);
      Recorded(TheRun(), h, e, s, Abs());
      history := h + [e];
    }

    // -------------------------------------------------------------- health

    method RestartCa() returns (o: SpawnOutcome, ghost kills: seq<Call>)
      requires vm != ca && (ca.childPid.Some? ==> ca.childPid.value in kernel.procs.Unreaped())
      modifies kernel, ca
      ensures old(kernel.clock) <= kernel.clock && old(kernel.procs).Allows(o)
      ensures Abs() == old(Abs()).Stop(Ca).Start(Ca, o).(clock := kernel.clock)
      ensures kernel.asked == old(kernel.asked) + StartQuestions(o)
      ensures kernel.calls == old(kernel.calls) + kills && KillCalls(kills, old(ca.childPid), config.grace)
    {
      hide KillCalls;
      kills := ca.Stop(kernel, config.grace);
      assert kernel.procs.Unreaped() == old(kernel.procs).Unreaped();
      o := ca.Start(kernel);
    }

    /** `kills` are the signals sent in order to restart the CA. */
    method RunHealthCheck() returns (ghost at: Time, out: Health.Outcome, o: SpawnOutcome, ghost kills: seq<Call>)
      requires vm != ca && health.failThreshold == config.failThreshold
      requires ca.childPid.Some? ==> ca.childPid.value in kernel.procs.Unreaped()
      modifies this`lastHealth, kernel, ca, health
      ensures old(kernel.clock) <= at <= kernel.clock && old(kernel.procs).Allows(o)
      ensures Abs() == CheckHealth(config, old(Abs()).(clock := kernel.clock), at, kernel.clock, out, o)
      ensures kernel.asked == old(kernel.asked) + HealthQuestions(config, old(Abs()), at, out, o)
      ensures kernel.calls == old(kernel.calls) + kills
      ensures KillCalls(kills, if Abs().ca == old(Abs()).ca then None else old(ca.childPid), config.grace)
    {
      hide KillCalls, StartQuestions;
      out, o, kills := Health.OtherError, NotInstalled, [];
      NoKills(config.grace);
      var now := kernel.Now();
      at := now;
      if now >= lastHealth + config.healthInterval * SECOND {
        if ca.stage == Ready || ca.stage == Up {
          out := kernel.Connect();
          var v := health.ProbeOnce(out);
          if v.RestartNeeded? {
            o, kills := RestartCa();
          }
        }
        lastHealth := kernel.Now();
      }
    }

    method HealthCheckStep()
      requires Valid() && serving
      modifies this`lastHealth, this`history, kernel, ca, health
      ensures Valid() && |history| == |old(history)| + 1 && old(history) < history
      ensures history[|old(history)|].action.HealthCheck?
    {
      hide After, Legal, Step, CheckHealth, Asks, Asked, HealthQuestions, KillCalls;
      ghost var h, s := history, Abs();
      ReachableSound(TheRun(), h);
      var at, out, o, _ := RunHealthCheck();
      ghost var e := Event(at, HealthCheck(out, o), kernel.clock);
      HealthStep(config, s, e);
      Recorded(TheRun(), h, e, s, Abs());
      history := h + [e];
    }

    /** Forgives crash counts at the end of a loop iteration. */
    method ResetCrashCounts()
      requires Valid() && serving
      modifies this`history, kernel`clock, vm, ca
      ensures Valid() && |history| == |old(history)| + 1 && old(history) < history
      ensures history[|old(history)|].action.ResetCounts?
    {
      hide After, Legal, Asked;
      ghost var h, s := history, Abs();
      vm.MaybeResetCrashCount(kernel);
      ghost var at := kernel.clock;
      ca.MaybeResetCrashCount(kernel);
      ghost var e := Event(at, ResetCounts, kernel.clock);
      Recorded(TheRun(), h, e, s, Abs());
      history := h + [e];
    }

    // -------------------------------------------------------------- IPC

    /** Stopping a tracked child takes at least the grace period: it is not collected meanwhile. */
    ghost function StopDelay(s: State, w: Which): nat {
      if s.Of(w).pid.Some? then config.grace * SECOND + KILL_WAIT else 0
    }

    method StopManager(w: Which) returns (ghost kills: seq<Call>)
      requires vm != ca && Tracked(Abs()) <= kernel.procs.Unreaped()
      modifies kernel, vm, ca
      ensures old(kernel.clock) + StopDelay(old(Abs()), w) <= kernel.clock
      ensures Abs() == old(Abs()).Stop(w).(clock := kernel.clock)
      ensures kernel.procs.Unreaped() == old(kernel.procs).Unreaped() && kernel.asked == old(kernel.asked)
      ensures kernel.calls == old(kernel.calls) + kills && KillCalls(kills, old(Abs()).Of(w).pid, config.grace)
    {
      hide KillCalls;
      if w.Vm? {
        kills := vm.Stop(kernel, config.grace);
      } else {
        kills := ca.Stop(kernel, config.grace);
      }
    }

    /** Stops both managers, the CA first: all its signals come before those to the VM. */
    method StopBoth() returns (ghost caKills: seq<Call>, ghost vmKills: seq<Call>)
      requires vm != ca && Tracked(Abs()) <= kernel.procs.Unreaped()
      modifies kernel, vm, ca
      ensures old(kernel.clock) + StopDelay(old(Abs()), Ca) + StopDelay(old(Abs()), Vm) <= kernel.clock
      ensures Abs() == old(Abs()).Stop(Ca).Stop(Vm).(clock := kernel.clock)
      ensures kernel.asked == old(kernel.asked) && kernel.calls == old(kernel.calls) + caKills + vmKills
      ensures KillCalls(caKills, old(ca.childPid), config.grace) && KillCalls(vmKills, old(vm.childPid), config.grace)
    {
      hide KillCalls;
      caKills := StopManager(Ca);
      vmKills := StopManager(Vm);
    }

    /**
     The start and stop handlers.  `caKills` and `vmKills` are the signals sent to the children, those
     to the CA's first; `cmd` is the command as the history records it.
     */
    method DispatchRequest(q: Request)
      returns (ok: bool, ghost cmd: Command, ghost caKills: seq<Call>, ghost vmKills: seq<Call>)
      requires vm != ca && Tracked(Abs()) <= kernel.procs.Unreaped()
      modifies kernel, vm, ca
      ensures old(kernel.clock) <= kernel.clock
      ensures Serves(q, cmd) && CommandAllowed(old(kernel.procs), cmd)
      ensures Abs() == Dispatch(old(Abs()), cmd).(clock := kernel.clock)
      ensures Fulfils(q, ok, old(Abs()), Abs())
      ensures kernel.asked == old(kernel.asked) + CommandQuestions(cmd)
      ensures kernel.calls == old(kernel.calls) + caKills + vmKills
      ensures KillCalls(caKills, if q.DoStopAll? || q.DoStopCa? then old(ca.childPid) else None, config.grace)
      ensures KillCalls(vmKills, if q.DoStopAll? || q.DoStopVm? then old(vm.childPid) else None, config.grace)
    {
      hide KillCalls, StartQuestions;
      NoKills(config.grace);
      ok, cmd, caKills, vmKills := true, Inert, [], [];
      match q {
        case DoStartAll => var o := vm.Start(kernel); ok, cmd := o.Spawned?, StartAll(o);
        case DoStopAll => caKills, vmKills := StopBoth(); cmd := StopAll;
        case DoStartVm => var o := vm.Start(kernel); ok, cmd := o.Spawned?, StartVm(o);
        case DoStopVm => vmKills := StopManager(Vm); cmd := StopVm;
        case DoStartCa => var o := ca.Start(kernel); ok, cmd := o.Spawned?, StartCa(o);
        case DoStopCa => caKills := StopManager(Ca); cmd := StopCa;
        case Query =>
        case Unknown => ok := false;
        case Malformed => ok := false;
      }
    }

    /** Serves one request line and says whether the reply reports success. */
    method HandleLine(line: seq<Byte>) returns (ok: bool)
      requires Valid() && serving
      modifies this`history, kernel, vm, ca
      ensures Valid() && |history| == |old(history)| + 1 && old(history) < history
      ensures Served(TheRun(), parse, Reply(line, ok), history, |old(history)|)
    {
      hide After, Legal, Step, Dispatch, Asks, Asked, CommandQuestions, KillCalls, Fulfils;
      ghost var h, s := history, Abs();
      ReachableSound(TheRun(), h);
      var q := parse(line);
      var success, cmd, _, _ := DispatchRequest(q);
      ok := success;
      ghost var e := Event(s.clock, Handle(cmd), kernel.clock);
      HandleStep(config, s, e);
      Recorded(TheRun(), h, e, s, Abs());
      history := h + [e];
      assert history[..|h|] == h && history[..|h| + 1] == history;
    }

    /**
     One client connection: capped reads, one reply per non-blank piece, in order, until the stream
     ends or a reply to a well-formed request cannot be written.
     */
    method HandleClient(stream: Stream) returns (replies: seq<Reply>)
      requires Valid() && serving && stream.writes == []
      modifies this`history, kernel, vm, ca, stream
      ensures Valid() && old(history) <= history
      ensures AllServed(TheRun(), parse, replies, history, |old(history)|)
      ensures Attended(parse, Requests(stream.bytes, stream.ending, Utf8.Valid), replies, stream.writes)
    {
      hide *;
      NothingServed(TheRun(), parse, history);
      NobodyReplied(parse);
      replies := [];
      var rest := stream.bytes;
      while Delivers(rest, stream.ending, Utf8.Valid)
        invariant Valid() && serving
        invariant old(history) <= history && AllServed(TheRun(), parse, replies, history, |old(history)|)
        invariant Ongoing(parse, replies, stream.writes)
        invariant LinesOf(replies) + Requests(rest, stream.ending, Utf8.Valid)
                  == Requests(stream.bytes, stream.ending, Utf8.Valid)
        decreases |rest|
      {
        RequestsStep(rest, stream.ending);
        var line := Trim(rest[..ReadSize(rest)]);
        rest := rest[ReadSize(rest)..];
        if line != [] {
          ghost var h := history;
          var ok := HandleLine(line);
          ghost var reply, later := Reply(line, ok), Requests(rest, stream.ending, Utf8.Valid);
          AllServedAppend(TheRun(), parse, replies, h, |old(history)|, reply, history);
          LinesOfAppend(replies, reply, later);
          ghost var before, writes := replies, stream.writes;
          replies := replies + [Reply(line, ok)];
          var written := stream.Write();
          Replied(parse, before, writes, reply, written, later);
          if !written && parse(line) != Malformed {
            return;
          }
        }
      }
      RequestsDone(rest, stream.ending);
      AllReplied(parse, replies, stream.writes);
    }

    // -------------------------------------------------------------- the main loop

    /** Graceful shutdown: the CA first, then the VM. */
    method ShutDown() returns (ghost caKills: seq<Call>, ghost vmKills: seq<Call>)
      requires Valid() && serving
      modifies this`serving, this`history, kernel, vm, ca
      ensures Valid() && !serving && |history| == |old(history)| + 1 && old(history) < history
      ensures history[|old(history)|].action.Shutdown?
      ensures vm.childPid.None? && ca.childPid.None?
      ensures old(kernel.clock) + StopDelay(old(Abs()), Ca) + StopDelay(old(Abs()), Vm) <= kernel.clock
      ensures kernel.calls == old(kernel.calls) + caKills + vmKills
      ensures KillCalls(caKills, old(ca.childPid), config.grace) && KillCalls(vmKills, old(vm.childPid), config.grace)
    {
      hide After, Legal, KillCalls, Asked;
      ghost var h, s := history, Abs();
      ReachableSound(TheRun(), h);
      caKills, vmKills := StopBoth();
      serving := false;
      ghost var e := Event(s.clock, Shutdown, kernel.clock);
      Recorded(TheRun(), h, e, s, Abs());
      history := h + [e];
    }

    /** Reads the signal pipe, collects children if and only if one died, and says whether to shut down. */
    method PollSignals() returns (stop: bool)
      requires Valid() && serving
      modifies this`history, kernel, vm, ca, pipe
      ensures Valid() && old(history) <= history
      ensures Drains(TheRun(), old(history), history[|old(history)|..])
      ensures pipe.notices == old(pipe.notices) + [Notice(history != old(history), stop)]
      ensures history != old(history) ==> kernel.procs.zombies == {} && kernel.departed == {}
    {
      hide After, Legal, ReapCall, Asked;
      NoEventsYet();
      assert history[|history|..] == [];
      var chld, term := pipe.Read();
      if chld {
        var _ := ReapChildren();
        assert old(history) + history[|old(history)|..] == history;
      }
      stop := term;
    }

    /** Serves a client, if one is waiting. */
    method PollClients() returns (ghost client: Option<Stream>)
      requires Valid() && serving
      modifies this`history, kernel, vm, ca, listener
      ensures Valid() && old(history) <= history
      ensures listener.visits == old(listener.visits) + [client] && (client.Some? ==> fresh(client.value))
      ensures Answers(TheRun(), parse, client, old(history), history[|old(history)|..])
    {
      hide Valid, AllServed, Attended;
      var visitor := listener.Accept();
      client := visitor;
      if visitor.Some? {
        var replies := HandleClient(visitor.value);
        assert old(history) + history[|old(history)|..] == history;
        assert AllServed(TheRun(), parse, replies, old(history) + history[|old(history)|..], |old(history)|);
      }
    }

    /** The part of a loop turn that does not wait for anything. */
    method Tend()
      requires Valid() && serving
      modifies this`phase, this`lastHealth, this`history, kernel, vm, ca, health
      ensures Valid() && old(history) <= history && |history| == |old(history)| + 3
      ensures var n := |old(history)|;
              history[n].action.Advance? && history[n + 1].action.HealthCheck? && history[n + 2].action.ResetCounts?
    {
      hide Valid;
      AdvanceStartup();
      HealthCheckStep();
      ResetCrashCounts();
    }

    /**
     One turn of the main loop, in its order; a shutdown signal ends it after the collections.  Children
     are collected exactly if the signal pipe said that one died, and requests are served exactly if a
     client was waiting, namely those of that client.
     */
    method Iterate() returns (stop: bool, ghost turn: Turn, ghost client: Option<Stream>)
      requires Valid() && serving
      modifies this`phase, this`lastHealth, this`history, kernel, vm, ca, health, pipe, listener
      ensures Valid() && old(history) <= history
      ensures Drains(TheRun(), old(history), turn.reaps)
      ensures pipe.notices == old(pipe.notices) + [Notice(turn.reaps != [], stop)]
      ensures listener.visits == old(listener.visits) + if stop then [] else [client]
      ensures if stop then history == old(history) + turn.reaps
              else history == old(history) + turn.Events() && turn.InOrder()
      ensures !stop ==> Answers(TheRun(), parse, client, old(history) + turn.reaps, turn.requests)
      ensures client.Some? ==> fresh(client.value)
    {
      hide Valid, Drains, Commands, Answers;
      ghost var h := history;
      client := None;
      stop := PollSignals();
      ghost var reaps, n := history[|h|..], |history|;
      assert history == h + reaps;
      turn := Turn(reaps, [], Event(0, ResetCounts, 0), Event(0, ResetCounts, 0), Event(0, ResetCounts, 0));
      if !stop {
        client := PollClients();
        ghost var requests, m := history[n..], |history|;
        AnswersAreCommands(TheRun(), parse, client, h + reaps, requests);
        Tend();
        turn := Turn(reaps, requests, history[m], history[m + 1], history[m + 2]);
        assert history == h + turn.Events();
      }
    }

    /**
     The main loop, for as many as `turns` turns or until a shutdown signal, which is then obeyed.
     `ts` are the turns taken and `reaps` the collections made before shutdown.  In every turn children
     were collected exactly if the signal pipe had a notice of a death, and the requests served were
     those of the client, if any.  Whatever the environment does, the CA was restarted after a death at
     most eight times, health restarts kept to their rate, and after shutdown nothing is tracked.
     */
    method Serve(turns: nat) returns (stopped: bool, ghost ts: seq<Turn>, ghost reaps: seq<Event>)
      requires Valid() && serving
      modifies this, kernel, vm, ca, health, pipe, listener
      ensures Valid() && Sound(Abs()) && TakesTurns(TheRun(), old(history), ts)
      ensures !stopped ==> serving && |ts| == turns && history == old(history) + Flatten(ts)
      ensures stopped ==>
              && !serving && Tracked(Abs()) == {} && |history| > 0
              && history == old(history) + Session(ts, reaps, history[|history| - 1]).Events()
              && Session(ts, reaps, history[|history| - 1]).Follows(TheRun(), old(history))
      ensures pipe.notices == old(pipe.notices) + Noticed(ts) + (if stopped then [Notice(reaps != [], true)] else [])
      ensures old(listener.visits) <= listener.visits
      ensures AllAnswered(TheRun(), parse, listener.visits[|old(listener.visits)|..], old(history), ts)
      ensures Tally(TheRun(), history, RestartsCa()) <= 8
      ensures Tally(TheRun(), history, BecomesReady(Ca)) <= 1
      ensures KeepsHealthRate(TheRun(), history)
    {
      hide After, Tally, Legal, Step, Sound, Drains, Flatten, TakesTurns, Turn.InOrder, Turn.Events, Answers, Asked;
      hide Noticed, AllAnswered;
      stopped, ts, reaps := false, [], [];
      NoTurnsYet(TheRun(), history);
      NothingNoticed(TheRun(), parse, history);
      assert history == history + Flatten(ts) && pipe.notices == pipe.notices + Noticed(ts);
      assert listener.visits[|listener.visits|..] == [];
      var i := 0;
      while i < turns && !stopped
        invariant Valid() && serving && |ts| == i <= turns && TakesTurns(TheRun(), old(history), ts)
        invariant history == old(history) + Flatten(ts) + reaps
        invariant if stopped then Drains(TheRun(), old(history) + Flatten(ts), reaps) else reaps == []
        invariant pipe.notices ==
                  old(pipe.notices) + Noticed(ts) + (if stopped then [Notice(reaps != [], true)] else [])
        invariant old(listener.visits) <= listener.visits
        invariant AllAnswered(TheRun(), parse, listener.visits[|old(listener.visits)|..], old(history), ts)
        decreases !stopped, turns - i
      {
        ghost var turn, client, visits;
        visits := listener.visits[|old(listener.visits)|..];
        assert history == old(history) + Flatten(ts);
        stopped, turn, client := Iterate();
        if stopped {
          reaps := turn.reaps;
          assert listener.visits[|old(listener.visits)|..] == visits;
        } else {
          LoopsExtend(TheRun(), old(history), ts, turn);
          assert old(history) + Flatten(ts) + turn.Events() == old(history) + (Flatten(ts) + turn.Events());
          NoticedAppend(ts, turn);
          AnsweredAppend(TheRun(), parse, visits, old(history), ts, client, turn);
          assert listener.visits[|old(listener.visits)|..] == visits + [client];
          ts := ts + [turn];
          i := i + 1;
        }
      }
      if stopped {
        ghost var h := history;
        var _, _ := ShutDown();
        ghost var last := history[|h|];
        assert history == old(history) + (Flatten(ts) + reaps + [last]);
      }
      RunGuarantees(TheRun(), history);
    }
  }
}
