/**
 The operating system as the daemon meets it.  Every answer the environment may give is left open:
 the methods of `Kernel` choose freely among what their contracts allow, so a proof about a caller
 covers every environment.
 */
module Host {
  import opened Basics
  import opened Processes
  import opened Ipc
  import Health

  /** Calls to `kill(2)`, namely liveness polls (signal 0), SIGTERM and SIGKILL, and the sleeps between them. */
  datatype Call =
    | Polled(pid: Pid, at: Time, answered: bool)
    | Term(pid: Pid, at: Time)
    | Kill(pid: Pid, at: Time)
    | Slept(d: nat)

  /** Something the daemon asked of its environment, with the answer it got. */
  datatype Question =
    | Installed(ok: bool)             // are the binary and the images there?
    | Forked(child: Option<Pid>)
    | VsockProbe(answer: bool)
    | PortProbe(answer: bool)
    | Connected(outcome: Health.Outcome)

  /** What an attempt to start a program asks. */
  function StartQuestions(o: SpawnOutcome): seq<Question> {
    match o
    case NotInstalled => [Installed(false)]
    case SpawnError => [Installed(true), Forked(None)]
    case Spawned(p) => [Installed(true), Forked(Some(p))]
  }

  class Kernel {
    var procs: Procs
    var departed: set<Pid>            // running children that have exited; the next `waitpid` finds out
    var clock: Time
    ghost var calls: seq<Call>
    ghost var asked: seq<Question>

    constructor (clock: Time)
      ensures procs == NO_CHILDREN && departed == {} && this.clock == clock && calls == [] && asked == []
    {
      procs, departed, this.clock, calls, asked := NO_CHILDREN, {}, clock, [], [];
    }

    method Now() returns (t: Time)
      modifies this`clock
      ensures old(clock) <= clock == t
    {
      var reading: int := *;
      if reading > clock {
        clock := reading;
      }
      t := clock;
    }

    /** Time passes, and any running children may exit meanwhile. */
    method Sleep(d: nat)
      modifies this`clock, this`departed, this`calls
      ensures old(clock) + d <= clock && calls == old(calls) + [Slept(d)]
      ensures old(departed) <= departed <= old(departed) + procs.running
    {
      var _ := Now();
      clock := clock + d;
      var any: set<Pid> := *;
      departed := departed + any * procs.running;
      calls := calls + [Slept(d)];
    }

    /** A child that has exited still counts as alive: its pid is in use until it is collected. */
    method IsAlive(pid: Pid) returns (alive: bool)
      modifies this`calls
      ensures calls == old(calls) + [Polled(pid, clock, alive)]
      ensures pid in procs.Unreaped() ==> alive
    {
      var other: bool := *;
      alive := pid in procs.running || pid in procs.zombies || other;
      calls := calls + [Polled(pid, clock, alive)];
    }

    method SendTerm(pid: Pid)
      modifies this`calls, this`procs
      ensures calls == old(calls) + [Term(pid, clock)]
      ensures procs == old(procs).Condemn(if pid in old(procs).Unreaped() then Some(pid) else None)
    {
      procs := procs.Condemn(if pid in procs.Unreaped() then Some(pid) else None);
      calls := calls + [Term(pid, clock)];
    }

    method SendKill(pid: Pid)
      modifies this`calls
      ensures calls == old(calls) + [Kill(pid, clock)]
    {
      calls := calls + [Kill(pid, clock)];
    }

    /** Forks, if it can; the new pid is not that of an uncollected child. */
    method Spawn() returns (o: SpawnOutcome)
      modifies this`procs, this`asked
      ensures !o.NotInstalled? && old(procs).Allows(o) && procs == old(procs).Fork(o)
      ensures asked == old(asked) + [Forked(if o.Spawned? then Some(o.pid) else None)]
    {
      var p: Pid := *;
      o := if p in procs.Unreaped() then SpawnError else Spawned(p);
      procs := procs.Fork(o);
      asked := asked + [Forked(if o.Spawned? then Some(o.pid) else None)];
    }

    /** `waitpid(-1, WNOHANG)`: the departed and any more running children have exited by now. */
    method WaitPid() returns (r: Option<Pid>, ghost exited: set<Pid>)
      modifies this`procs, this`departed
      ensures old(departed) * old(procs).running <= exited <= old(procs).running && departed == {}
      ensures r.None? ==> procs == old(procs).Exit(exited) && procs.zombies == {}
      ensures r.Some? ==>
              && r.value in old(procs).Exit(exited).zombies
              && procs == old(procs).Exit(exited).Collect(r.value)
    {
      var any: set<Pid> := *;
      var gone := (departed + any) * procs.running;
      exited, departed := gone, {};
      procs := procs.Exit(gone);
      if procs.zombies == {} {
        r := None;
      } else {
        var p :| p in procs.zombies;
        procs := procs.Collect(p);
        r := Some(p);
      }
    }

    /** Checks the files a program needs. */
    method CheckInstalled() returns (ok: bool)
      modifies this`asked
      ensures asked == old(asked) + [Installed(ok)]
    {
      ok := *;
      asked := asked + [Installed(ok)];
    }

    method ProbeVsock() returns (answer: bool)
      modifies this`asked
      ensures asked == old(asked) + [VsockProbe(answer)]
    {
      answer := *;
      asked := asked + [VsockProbe(answer)];
    }

    method ProbePort() returns (answer: bool)
      modifies this`asked
      ensures asked == old(asked) + [PortProbe(answer)]
    {
      answer := *;
      asked := asked + [PortProbe(answer)];
    }

    method Connect() returns (outcome: Health.Outcome)
      modifies this`asked
      ensures asked == old(asked) + [Connected(outcome)]
    {
      outcome := *;
      asked := asked + [Connected(outcome)];
    }
  }

  // ---------------------------------------------------------------- signals and clients

  /** What one look at the signal pipe found: a child died, a shutdown was asked for. */
  datatype Notice = Notice(chld: bool, term: bool)

  class SignalPipe {
    ghost var notices: seq<Notice>

    constructor ()
      ensures notices == []
    {
      notices := [];
    }

    method Read() returns (chld: bool, term: bool)
      modifies this
      ensures notices == old(notices) + [Notice(chld, term)]
    {
      chld, term := *, *;
      notices := notices + [Notice(chld, term)];
    }
  }

  /** A client's connection: the bytes it sends, how they end, and which replies could be written. */
  class Stream {
    const bytes: seq<Byte>
    const ending: Ending
    ghost var writes: seq<bool>

    constructor (bytes: seq<Byte>, ending: Ending)
      ensures this.bytes == bytes && this.ending == ending && writes == []
    {
      this.bytes, this.ending, writes := bytes, ending, [];
    }

    method Write() returns (ok: bool)
      modifies this
      ensures writes == old(writes) + [ok]
    {
      ok := *;
      writes := writes + [ok];
    }
  }

  class Listener {
    ghost var visits: seq<Option<Stream>>

    constructor ()
      ensures visits == []
    {
      visits := [];
    }

    /** The next client, if one is waiting. */
    method Accept() returns (client: Option<Stream>)
      modifies this
      ensures visits == old(visits) + [client]
      ensures client.Some? ==> fresh(client.value) && client.value.writes == []
    {
      var waiting: bool := *;
      client := None;
      if waiting {
        var bytes: seq<Byte>, ending: Ending := *, *;
        var stream := new Stream(bytes, ending);
        client := Some(stream);
      }
      visits := visits + [client];
    }
  }

  // ---------------------------------------------------------------- graceful_kill

  const POLL_INTERVAL: nat := 200 * MILLISECOND
  const KILL_WAIT: nat := 100 * MILLISECOND

  /** Rounds of the waiting loop: a poll that saw the process alive, at each of the given times, and a sleep. */
  function Rounds(pid: Pid, times: seq<Time>): seq<Call> {
    if times == [] then []
    else Rounds(pid, times[..|times| - 1]) + [Polled(pid, times[|times| - 1], true), Slept(POLL_INTERVAL)]
  }

  lemma NextRound(base: seq<Call>, pid: Pid, times: seq<Time>, t: Time)
    ensures base + Rounds(pid, times) + [Polled(pid, t, true)] + [Slept(POLL_INTERVAL)]
            == base + Rounds(pid, times + [t])
  {
    assert (times + [t])[..|times|] == times;
  }

  lemma NoRounds(base: seq<Call>, pid: Pid)
    ensures base + Rounds(pid, []) == base
  {}

  /**
   What one `graceful_kill` did: nothing but a poll, because the process was gone; SIGTERM and
   polls until one no longer saw the process; or SIGTERM, polls, SIGKILL and a last poll.
   */
  datatype Story =
    | WasGone(first: Time)
    | LeftInTime(first: Time, termAt: Time, polls: seq<Time>, last: Time)
    | WasKilled(first: Time, termAt: Time, polls: seq<Time>, killAt: Time, last: Time, alive: bool)
  {
    /** The calls it made, in order. */
    function Calls(pid: Pid): seq<Call> {
      match this
      case WasGone(first) => [Polled(pid, first, false)]
      case LeftInTime(first, termAt, polls, last) =>
        [Polled(pid, first, true), Term(pid, termAt)] + Rounds(pid, polls) + [Polled(pid, last, false)]
      case WasKilled(first, termAt, polls, killAt, last, alive) =>
        [Polled(pid, first, true), Term(pid, termAt)] + Rounds(pid, polls)
        + [Kill(pid, killAt), Slept(KILL_WAIT), Polled(pid, last, alive)]
    }

    /** The polls of the loop are few, and SIGKILL waits for the grace period. */
    predicate Proper(grace: nat) {
      && (LeftInTime? ==> |polls| + 1 <= 5 * grace)
      && (WasKilled? ==> |polls| <= 5 * grace && killAt >= termAt + grace * SECOND)
    }

    /** The result of the call: whether its last poll saw the process gone. */
    predicate Result() { WasKilled? ==> !alive }
  }

  lemma CallsOfLeft(base: seq<Call>, pid: Pid, st: Story)
    requires st.LeftInTime?
    ensures base + [Polled(pid, st.first, true)] + [Term(pid, st.termAt)] + Rounds(pid, st.polls)
            + [Polled(pid, st.last, false)] == base + st.Calls(pid)
  {}

  lemma CallsOfKilled(base: seq<Call>, pid: Pid, st: Story)
    requires st.WasKilled?
    ensures base + [Polled(pid, st.first, true)] + [Term(pid, st.termAt)] + Rounds(pid, st.polls)
            + [Kill(pid, st.killAt)] + [Slept(KILL_WAIT)] + [Polled(pid, st.last, st.alive)] == base + st.Calls(pid)
  {}

  /** The loop of `graceful_kill`: polls every 200 ms until the process is gone or the deadline has come. */
  method PollUntil(k: Kernel, pid: Pid, deadline: Time, ghost grace: nat) returns (gone: bool, ghost polls: seq<Time>)
    requires deadline <= k.clock + grace * SECOND
    modifies k`clock, k`calls, k`departed
    ensures old(k.clock) <= k.clock && old(k.departed) <= k.departed <= old(k.departed) + k.procs.running
    ensures k.calls == old(k.calls) + Rounds(pid, polls) + (if gone then [Polled(pid, k.clock, false)] else [])
    ensures gone ==> |polls| + 1 <= 5 * grace && pid !in k.procs.Unreaped()
    ensures !gone ==> |polls| <= 5 * grace && k.clock >= deadline
  {
    hide Rounds;
    NoRounds(k.calls, pid);
    polls := [];
    var now := k.Now();
    while now < deadline
      invariant now == k.clock >= old(k.clock)
      invariant old(k.departed) <= k.departed <= old(k.departed) + k.procs.running
      invariant k.clock + grace * SECOND >= deadline + |polls| * POLL_INTERVAL
      invariant k.calls == old(k.calls) + Rounds(pid, polls) && |polls| <= 5 * grace
      decreases 5 * grace - |polls|
    {
      var alive := k.IsAlive(pid);
      if !alive {
        return true, polls;
      }
      NextRound(old(k.calls), pid, polls, k.clock);
      polls := polls + [k.clock];
      k.Sleep(POLL_INTERVAL);
      now := k.Now();
    }
    gone := false;
  }

  /**
   SIGTERM, wait, SIGKILL.  For an uncollected child, which every poll sees alive, the whole grace
   period passes, SIGKILL is sent and the result is false, even if the child exits at once: any
   children may depart during the call.  Only for a process that is not an uncollected child can the
   result be true.
   */
  method GracefulKill(k: Kernel, pid: Pid, grace: nat) returns (gone: bool, ghost story: Story)
    modifies k`clock, k`calls, k`departed, k`procs
    ensures k.calls == old(k.calls) + story.Calls(pid) && story.Proper(grace) && gone == story.Result()
    ensures k.procs == old(k.procs).Condemn(if pid in old(k.procs).Unreaped() then Some(pid) else None)
    ensures old(k.clock) <= k.clock && old(k.departed) <= k.departed <= old(k.departed) + old(k.procs).running
    ensures pid in old(k.procs).Unreaped() ==>
            story.WasKilled? && !gone && k.clock >= old(k.clock) + grace * SECOND + KILL_WAIT
  {
    ghost var first := k.clock;
    var alive := k.IsAlive(pid);
    if !alive {
      return true, WasGone(first);
    }
    k.SendTerm(pid);
    var now := k.Now();
    var deadline := now + grace * SECOND;
    ghost var polls;
    gone, polls := PollUntil(k, pid, deadline, grace);
    hide Story.Calls;
    if gone {
      story := LeftInTime(first, first, polls, k.clock);
      CallsOfLeft(old(k.calls), pid, story);
      return;
    }
    ghost var killAt := k.clock;
    k.SendKill(pid);
    k.Sleep(KILL_WAIT);
    alive := k.IsAlive(pid);
    gone, story := !alive, WasKilled(first, first, polls, killAt, k.clock, alive);
    CallsOfKilled(old(k.calls), pid, story);
  }
}
