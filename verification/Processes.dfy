/**
 The daemon's children as the kernel sees them.  A child is running or a zombie until `waitpid`
 collects it, and its pid is not handed out again before that.
 */
module Processes {
  import opened Basics

  /** What an attempt to start a program came back with. */
  datatype SpawnOutcome =
    | NotInstalled          // the binary or an image failed its check, nothing was attempted
    | SpawnError            // the spawn itself failed
    | Spawned(pid: Pid)

  /** `condemned` holds the uncollected children that were handed to `graceful_kill`. */
  datatype Procs = Procs(running: set<Pid>, zombies: set<Pid>, condemned: set<Pid>)
  {
    function Unreaped(): set<Pid> { running + zombies }

    /** The kernel never reuses the pid of an uncollected child. */
    predicate Allows(o: SpawnOutcome) { o.Spawned? ==> o.pid !in Unreaped() }

    function Fork(o: SpawnOutcome): Procs {
      if o.Spawned? then this.(running := running + {o.pid}) else this
    }

    function Condemn(p: Option<Pid>): Procs {
      if p.Some? then this.(condemned := condemned + {p.value}) else this
    }

    function Exit(ps: set<Pid>): Procs { this.(running := running - ps, zombies := zombies + ps) }

    function Collect(p: Pid): Procs { this.(zombies := zombies - {p}, condemned := condemned - {p}) }
  }

  const NO_CHILDREN := Procs({}, {}, {})
}
