/**
 The two process managers.  `VmManager` and `CaManager` have the same fields and the same
 methods, so both are instances of one model; stage `Up` is the VM's `Booting` and the CA's
 `Running`.
 */
module Managers {
  import opened Basics
  import opened Processes
  import opened Host

  datatype Stage = Idle | Starting | Up | Ready | Stopping | Error

  /** How long a manager must stay ready before its crash count is forgiven. */
  const STABLE: nat := 60 * SECOND

  /** Crash count at which a manager gives up. */
  const MAX_CRASHES: nat := 5

  datatype Status = Status(stage: Stage, pid: Option<Pid>, crashes: nat, readySince: Option<Time>)
  {
    predicate OwnsPid(p: Pid) { pid == Some(p) }

    predicate Halted() { stage.Idle? || stage.Error? }

    /** `is_dead`: halted, yet still holding the pid of a process that is gone. */
    predicate IsDead(procs: Procs) { Halted() && pid.Some? && pid.value !in procs.Unreaped() }

    function SetStage(s: Stage, now: Time): Status {
      if s.Ready? then this.(stage := s, readySince := Some(now)) else this.(stage := s)
    }

    function MarkDead(): Status { Status(Idle, None, crashes + 1, None) }

    function MaybeReset(now: Time): Status {
      if readySince.Some? && now >= readySince.value + STABLE then this.(crashes := 0) else this
    }

    function Start(o: SpawnOutcome): Status {
      match o
      case NotInstalled => this
      case SpawnError => this.(stage := Starting)
      case Spawned(p) => this.(stage := Up, pid := Some(p))
    }

    function Stop(): Status { this.(stage := Idle, pid := None, readySince := None) }
  }

  /** The calls are those of one proper `graceful_kill` of `pid`. */
  predicate Kills(story: Story, pid: Pid, grace: nat, calls: seq<Call>) {
    calls == story.Calls(pid) && story.Proper(grace)
  }

  /** The calls that stopping a manager with child `pid` makes. */
  ghost predicate KillCalls(calls: seq<Call>, pid: Option<Pid>, grace: nat) {
    match pid
    case None => calls == []
    case Some(p) => exists story :: Kills(story, p, grace, calls)
  }

  const NEW_MANAGER := Status(Idle, None, 0, None)

  /** A manager as the daemon holds it: four fields updated in place. */
  class Manager {
    var stage: Stage
    var childPid: Option<Pid>
    var crashCount: nat
    var readySince: Option<Time>

    function Value(): Status
      reads this
    {
      Status(stage, childPid, crashCount, readySince)
    }

    constructor ()
      ensures Value() == NEW_MANAGER
    {
      stage, childPid, crashCount, readySince := Idle, None, 0, None;
    }

    predicate OwnsPid(p: Pid)
      reads this
    {
      childPid == Some(p)
    }

    /**
     True exactly of a halted manager whose process no longer answers signal 0; so never of one whose
     pid is that of an uncollected child.
     */
    method IsDead(k: Kernel) returns (dead: bool)
      modifies k`calls
      ensures if Value().Halted() && childPid.Some?
              then k.calls == old(k.calls) + [Polled(childPid.value, k.clock, !dead)]
              else !dead && k.calls == old(k.calls)
      ensures dead ==> childPid.value !in k.procs.Unreaped()
    {
      dead := false;
      if (stage.Idle? || stage.Error?) && childPid.Some? {
        var alive := k.IsAlive(childPid.value);
        dead := !alive;
      }
    }

    method SetState(s: Stage, k: Kernel)
      modifies this, k`clock
      ensures old(k.clock) <= k.clock && (s != Ready ==> k.clock == old(k.clock))
      ensures Value() == old(Value()).SetStage(s, k.clock)
    {
      stage := s;
      if s == Ready {
        var now := k.Now();
        readySince := Some(now);
      }
    }

    method MarkDead()
      modifies this
      ensures Value() == old(Value()).MarkDead()
    {
      crashCount := crashCount + 1;
      childPid := None;
      stage := Idle;
      readySince := None;
    }

    method MaybeResetCrashCount(k: Kernel)
      modifies this`crashCount, k`clock
      ensures old(k.clock) <= k.clock
      ensures Value() == old(Value()).MaybeReset(k.clock)
    {
      if readySince.Some? {
        var now := k.Now();
        if now >= readySince.value + STABLE {
          crashCount := 0;
        }
      }
    }

    /** `Ok` in the source is `Spawned` here. */
    method Start(k: Kernel) returns (o: SpawnOutcome)
      modifies this, k`procs, k`asked
      ensures old(k.procs).Allows(o) && k.procs == old(k.procs).Fork(o)
      ensures Value() == old(Value()).Start(o)
      ensures k.asked == old(k.asked) + StartQuestions(o)
    {
      var installed := k.CheckInstalled();
      if !installed {
        return NotInstalled;
      }
      stage := Starting;
      o := k.Spawn();
      if o.SpawnError? {
        return;
      }
      childPid := Some(o.pid);
      stage := Up;
    }

    /**
     Stopping an uncollected child takes the whole grace period, since nothing collects it meanwhile.
     `calls` are the signals it sent: those of one `graceful_kill`, or none.
     */
    method Stop(k: Kernel, grace: nat) returns (ghost calls: seq<Call>)
      modifies this, k`clock, k`calls, k`departed, k`procs
      ensures Value() == old(Value()).Stop()
      ensures old(k.clock) <= k.clock
      ensures k.calls == old(k.calls) + calls && KillCalls(calls, old(childPid), grace)
      ensures old(childPid).Some? && old(childPid).value in old(k.procs).Unreaped() ==>
              && k.procs == old(k.procs).Condemn(old(childPid))
              && old(k.clock) + grace * SECOND + KILL_WAIT <= k.clock
      ensures old(childPid).None? || old(childPid).value !in old(k.procs).Unreaped() ==> k.procs == old(k.procs)
    {
      stage := Stopping;
      calls := [];
      if childPid.Some? {
        var pid := childPid.value;
        childPid := None;
        var _, story := GracefulKill(k, pid, grace);
        calls := story.Calls(pid);
        assert Kills(story, pid, grace, calls);
      }
      stage := Idle;
      readySince := None;
    }
  }
}
