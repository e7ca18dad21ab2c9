# teeproxyd: supervision protocol, verified

`teeproxyd` is a single-threaded daemon that keeps two children alive: the process of a virtual
machine (VM) and the secret-proxy CA. One event loop interleaves five kinds of step over shared
state: collecting dead children, serving IPC commands, advancing the startup machine, checking the
CA's health and forgiving crash counts. Each step is short; what the daemon guarantees depends on
how the steps interact over runs of any length. This project models that protocol in Dafny and
proves the guarantees for every run.

## How the model is built

- **The protocol** (`Processes`, `Managers`, `Health`, `Protocol`). A `State` is what the main loop
  holds (two managers, startup phase, health counters, time of the last check) plus the kernel's
  view of the children (running, zombie, handed to `graceful_kill`). An `Event` is one step with
  everything the environment chose for it: which children exit, what a spawn or a probe answers,
  which command arrives, and the first and last clock reading of the step. `Step` is the step
  function, `Enabled` what kernel and clock allow, `After(r, h)` the state after history `h`, and
  `Tally` counts the steps of a history with a given effect, judged by the states before and after.
  Events may come in any order, so the main loop's own order is one case among those covered.
- **The theorems** (`Ownership`, `Startup`, `Recovery`, `Lives`, `Lifetimes`, `Cadence`, `CaStart`) quantify over
  all legal histories: any length, any commands, any deaths, any answers, any nondecreasing clock.
- **The loop** (`Loops`) is the order in which the main loop takes its steps. Results that say a run
  exists (`Witnesses`) give one of the loop: turn by turn, in order, every collection complete.
- **The program** (`Host`, `Managers.Manager`, `Health.HealthMonitor`, `Daemons.Daemon`) is the same
  protocol on objects updated in place, with the source's loops. `Kernel` answers with anything its
  contracts allow. `Daemon.Valid` says that the objects are in the state `After(history)` of a
  ghost history, which every method extends by the steps it took, and that the program has asked its
  environment exactly what these steps ask (`Dialogue`); so each theorem about legal
  histories holds of the program, and `Serve` states the main ones as postconditions, together with
  the fact that the history it adds is a run of the loop.
- **Text** (`LineEnds`, `Utf8`, `Ipc`, `LogTail`): the capped line reader of the IPC server and
  `tail_log`.

`VmManager` and `CaManager` have the same fields and methods, so one model serves both; its stage
`Up` is the VM's `Booting` and the CA's `Running`. Times are nanoseconds. Crash counts are naturals;
`CrashesCountDeaths` shows that 32 bits hold them for fewer than 2^32 deaths. The sum of the two
second counts in the vsock deadline wraps at 64 bits, as in the release build.

## Where the code and its documentation disagree

The model follows the code.

- The daemon never restarts a crashed VM, whoever started it (src/main.rs:230 and INTEGRATION.md:128
  say it does): `is_dead` is false in every reachable state, so the recovery branches of
  `advance_startup` are dead code (`NeverDead`, `CrashFailuresUnreachable`), and a VM that died comes
  back only when a client asks for one (`LoopNeverRestartsVm`). Which steps spawn a VM is
  `VmSpawnsExactly`; that a VM can die that way is `VmMayDie`.
- `start_all` does not in general lead to a CA (src/ipc.rs:98 says that startup will start it). The
  command leaves the startup machine alone, so a CA can follow exactly if startup could start one without
  the command: the VM is still to be started and the vsock deadline, whose sum may wrap, is not before
  the end of the probe delay; or the machine waits for vsock, the deadline has not passed and the delay
  ends by then; or the CA is next (`StartAllLeadsToCaExactly`). It fails with auto-start off
  (`StartAllNeverStartsCa`), and also while startup is under way, for a client that restarts everything
  while startup waits for the CA's port (`StartAllCanComeTooLate`).
- `graceful_kill` does not report whether a child exited in time (src/process.rs:43 says it does). A
  zombie still answers signal 0, and nothing collects it during the call, so for a child the whole
  grace period passes, SIGKILL is sent and the result is false: `GracefulKill`.
- A crash count is not reset after sixty stable seconds in general (README.md:82 says it is):
  `StableCaMayKeepItsCrash`. Exactly when it is reset is `ResetExactlyAfterAStableMinute`; for the CA
  the chance is gone after its first death or stop (`ForgivenessIsLost`).
- A second start command over a tracked child loses that child: `StartingTwiceOrphans`. Exactly the
  runs without such a step keep account of all children: `AccountedIffNeverOverwriting`.
- Valid requests can be dropped by the line cap (src/ipc.rs:11-14 speaks of garbage only): a
  character cut in two by the cap makes the piece invalid and ends the connection
  (`StraddlingTextIsDropped`). Exactly when valid text is served in full is
  `ValidTextIsServedIffUncut`.

## Model

| member | source | states |
|---|---|---|
| Recovery.LifetimeRestartBudget | src/main.rs:231-240 | in any run, with any commands and deaths, the CA is restarted because of a death at most eight times, and at most four if it never became ready |
| Recovery.RestartsAfterReady | src/ca.rs:59-64 | from any moment at which the CA has a ready stamp, at most four restarts follow for the rest of the run, none while the stamp lasts |
| Witnesses.RestartBudgetIsExact | src/main.rs:113-240 | the bound is reached: for every auto-starting configuration whose boot waits do not overflow 64 bits some run of the main loop restarts the CA exactly eight times |
| Recovery.ReadyAtMostOnce | src/startup.rs:84-113 | each manager becomes ready at most once per run |
| Recovery.ReadinessFollowsStartup | src/startup.rs:84-113 | a CA is ready or stamped only when startup is complete, a VM only after vsock has answered |
| Recovery.TurnsReadyExactly | src/startup.rs:74-107 | a step makes a manager ready, stamped with the end of the step and otherwise unchanged, if and only if it is a startup step that gets an answer from the CA's port, for the CA, or, for the VM, from vsock after some startup step found the boot delay over and not after the deadline |
| Lives.ManagersAreTheirLives | src/ca.rs:42-113 | each manager is what happened to it in the run: its child is the one born last unless it perished or was stopped since, its crash count the deaths since the last forgiveness, its stamp the last readiness unless brought down since, its stage the last event, with Error after the fifth unforgiven death |
| Recovery.RespawnIsRestart | src/main.rs:231-240 | a collection that leaves a new child running was a CA death and counts as a restart |
| Recovery.DeliberateStopIsNeverACrash | src/ca.rs:102-113 | when a child that some step stopped is finally collected, neither manager changes, whatever was spawned, stopped or collected in between |
| Recovery.ResetExactlyAfterAStableMinute | src/ca.rs:66-72 | for both managers: the reset step clears a crash count if and only if the manager became ready at least 60 s before the reading and since then neither died nor was stopped; otherwise it changes nothing |
| Recovery.ResetNeedsAStableMinute | src/main.rs:184-186 | no other step lowers a crash count |
| Recovery.StampHasAWitness | src/ca.rs:42-47 | a ready stamp is the time of a step that made the manager ready, with nothing bringing it down since |
| Recovery.WitnessGivesStamp | src/ca.rs:59-64 | conversely, a manager that became ready and was not brought down since carries that stamp |
| Recovery.ForgivenessIsLost | src/ca.rs:59-72 | once startup is over and the ready stamp is gone, the CA's crash count never drops again |
| Witnesses.StableCaMayKeepItsCrash | README.md:82-82 | under such a configuration some run of the main loop restarts its CA after readiness, and however many turns the CA then runs undisturbed, its crash is not forgiven |
| Recovery.CrashesCountDeaths | src/ca.rs:59-61 | a crash count never exceeds the number of tracked deaths |
| Ownership.ReachableSound | src/main.rs:216-244 | in every reachable state a tracked pid is an uncollected child, the managers share none, a child handed to `graceful_kill` is tracked by nobody, and an idle or failed manager holds no pid |
| Ownership.NeverDead | src/vm.rs:53-57 | `is_dead` is false of both managers in every reachable state |
| Ownership.ReapedPidIsReleased | src/main.rs:216-244 | after a collection is handled no manager holds the pid, except exactly when the CA respawned in that step was given the same pid |
| Ownership.CondemnedUntilCollected | src/vm.rs:125-140 | a child handed to `graceful_kill` stays so until it is collected |
| Ownership.StopIsNeverACrash | src/main.rs:223-243 | collecting a child handed to `graceful_kill` changes neither manager and spawns nothing |
| Ownership.ReapProgress | src/main.rs:197-244 | each collection lowers uncollected children plus `max(0, 5 - crashes)`, even if a CA is respawned in it |
| Ownership.ReapLoopIsBounded | src/main.rs:197-214 | however children exit meanwhile, the reap loop collects at most that bound and respawns at most `max(0, 4 - crashes)` CAs |
| Startup.PhasesAreMonotone | src/startup.rs:51-115 | phases never move back, and NotStarted, Complete and Failed never change |
| Startup.PhaseEnteredOnce | src/startup.rs:51-115 | each phase is entered at most once per run, the initial one never |
| Startup.CrashFailuresUnreachable | src/startup.rs:31-49 | the "crashed too many times" failures never occur |
| Startup.StartupMovesExactly | src/startup.rs:51-115 | every move of the startup machine by the times at which it started VM and CA: probes begin after a step that found the delay over; it fails on vsock exactly after boot plus the 64-bit sum of both waits; it is done with the CA's port exactly on an answer or after the CA's start plus its timeout, in `Complete`; failed starts of VM and CA end in their own failures; nothing else moves it |
| Startup.StartupSettles | src/startup.rs:54-114 | with `advance_startup` calls at most `gap` apart, a startup that booted the VM at `t` has settled by `t` + delay + boot timeout + CA timeout + 2 `gap`, whatever is answered, dies or is commanded |
| Startup.VsockProbeWindow | src/startup.rs:75-84 | a vsock probe is issued only after the boot delay and before the deadline |
| Startup.CaSpawnFollowsVsock | src/startup.rs:84-96 | without `start_ca`, every CA spawn of any kind comes after a vsock probe that was issued and answered |
| Startup.StartAllNeverStartsCa | src/ipc.rs:94-100 | with auto-start off, no number of `start_all` and `start_vm` commands spawns a CA |
| CaStart.StartupStartsCaExactly | src/startup.rs:54-98 | after any run, some continuation has startup spawn the CA if and only if the loop is serving and: the VM is still to be started and the wrapped deadline is not before the end of the delay; or vsock is awaited, the deadline has not passed and the delay is over or ends by then; or the CA is next. If so, undisturbed turns of the main loop do it; if not, no continuation in any order does |
| CaStart.StartAllLeadsToCaExactly | src/ipc.rs:94-100 | after `start_all`, whether or not the VM was spawned, startup can start the CA if and only if that condition holds of the state before the command, at the time the command ends |
| CaStart.StartAllCanComeTooLate | src/ipc.rs:94-100 | under an auto-starting configuration whose boot waits do not overflow, some run of the main loop with `stop_all` and `start_all` while startup waits for the CA's port has its VM back, no CA, and no continuation in which startup starts one |
| CaStart.CaIsDueExactly | src/startup.rs:84-98 | startup is about to start the CA if and only if its latest step was a vsock probe that was answered, whatever else happened since |
| Lifetimes.AccountedIffNeverOverwriting | src/ca.rs:96-97 | for every run: at all times every child is tracked, collected or handed to `graceful_kill`, if and only if no step spawns for a manager that still tracks a child |
| Lifetimes.LosesAChildExactlyWhenOverwriting | src/vm.rs:119-120 | the same for one step from a state that accounts for all children |
| Lifetimes.NoOrphans | src/main.rs:163-193 | without start commands no step spawns over a tracked child, and every child is tracked, collected or was handed to `graceful_kill` |
| Lifetimes.ShutdownTracksNothing | src/main.rs:189-193 | after shutdown no manager tracks a child, in any run |
| Lifetimes.ShutdownLeavesOnlyCondemned | src/main.rs:189-193 | after shutdown of a run that never spawned over a tracked child every uncollected child was handed to `graceful_kill` |
| Witnesses.StartingTwiceOrphans | src/ipc.rs:108-113 | in every configuration some run of the main loop with two `start_vm` commands ends, after shutdown, with a child nobody tracks or stopped |
| Lifetimes.DownCaStaysDown | src/main.rs:237-240 | a CA that is idle or given up when startup is over is never spawned again without `start_ca` |
| Lifetimes.VmSpawnedAtMostOnce | src/main.rs:223-230 | without `start_vm` and `start_all` the VM is spawned at most once, has at most one crash and never reaches Error |
| Lifetimes.VmSpawnsExactly | src/startup.rs:54-55 | a reachable step spawns a VM if and only if it is a startup step in the first phase or a start command, and the spawn succeeds |
| Lifetimes.DownVmStaysDown | src/vm.rs:53-64 | a VM that is down once startup has left its first phase, whoever had started it, is not spawned again until a client asks |
| Lifetimes.DeadVmStaysDead | src/main.rs:223-230 | the same from the step at which a VM died |
| Lifetimes.LoopNeverRestartsVm | src/main.rs:223-230 | in a run of the main loop it holds of every death of a VM |
| Witnesses.VmMayDie | src/main.rs:223-230 | such deaths occur: with auto-start some run of the main loop without any command boots a VM, loses it and ends without one |
| Loops.NoReapWhileVmStarting | src/main.rs:131-164 | in a run of the main loop no child is collected while startup is in its first phase |
| Cadence.HealthRestartRate | src/main.rs:167-182 | at any time of any run, health restarts times the fewest probes a restart costs are at most the whole health intervals since the loop began |
| Cadence.CaSpawnsExactly | src/ca.rs:74-100 | a reachable step spawns a CA if and only if the spawn succeeds and it is `start_ca`, the startup step after vsock has answered, the collection of the tracked CA with fewer than four crashes on the count, or a health check that restarts |
| Cadence.CaSpawnBudget | src/ca.rs:74-100 | without `start_ca`, CA spawns of all kinds are at most one, plus eight, plus the health restarts |
| Cadence.CaSpawnRate | src/main.rs:167-182 | so at most nine, plus the whole health intervals since the loop began divided by the fewest probes a restart costs |
| Cadence.HealthRestartReplacesChild | src/main.rs:170-174 | a health restart hands the old child to `graceful_kill` and tracks the new one; any other health check leaves the CA and the children alone |
| Cadence.CountersFollowChecks | src/main.rs:167-182 | both health counters are the refusals and timeouts, counted as below, among the checks made; a check is made exactly if the CA is up, ready or not, and a whole interval has passed since the last check that was due ended, or since the loop was entered |
| Cadence.HealthRestartsExactly | src/main.rs:167-174 | a health check restarts the CA, the old child being told to terminate, if and only if it is made and its refusal or timeout fills the threshold again; otherwise CA and children stay as they are |
| Witnesses.FailingChecksRestart | src/main.rs:167-174 | some run of the main loop whose CA refuses every connection has it restarted after every `max(1, threshold)` checks one interval apart; with timeouts, after every ten |
| Witnesses.HealthRateIsTight | src/health.rs:61-79 | the bound on the rate of health restarts is reached for any number of restarts |
| Dialogue.StepFollowsAnswers | src/main.rs:113-187 | a step depends on the environment only through what it asks: equal questions and answers, equal outcome |
| Dialogue.ProbesExactlyWhenItMatters | src/startup.rs:80-107 | a startup step probes vsock or the port exactly if the answer makes a difference |
| Dialogue.ConnectsExactlyWhenMade | src/main.rs:167-169 | a health check connects to the CA exactly if it is made in the sense above |
| Health.CountersRefineHistory | src/health.rs:42-85 | the counters are the refusals since the last success and the timeouts since the last success or refusal, modulo their thresholds |
| Health.VerdictRefinesHistory | src/health.rs:61-79 | a restart is asked for exactly when the count just bumped is a multiple of its threshold; Degraded carries the running count |
| Health.OtherErrorsDoNotMatter | src/health.rs:80-83 | deleting all other errors from a history changes no remaining verdict |
| Health.TimeoutsDoNotAffectRefusals | src/health.rs:61-79 | deleting all timeouts changes no verdict of a refused probe |
| Health.ProbePaysForRestart | src/health.rs:61-79 | one probe raises restarts times their price plus both counters by at most one |
| Health.HealthMonitor.ProbeOnce | src/health.rs:42-85 | the in-place probe yields the counters and verdict of the specification |
| Host.PollUntil | src/process.rs:50-56 | rounds of a poll that sees the process alive and a sleep of 200 ms, at most 5 per second of grace; it ends with the process seen gone or at the deadline |
| Host.GracefulKill | src/process.rs:42-62 | the exact order of calls: SIGTERM before SIGKILL, SIGKILL only after the grace period and only if every earlier poll saw the process alive; an uncollected child is always killed and reported as not gone, also if it exits during the grace period |
| Host.Kernel.IsAlive | src/process.rs:64-67 | an uncollected child, zombie or not, answers signal 0 |
| Host.Kernel.Spawn | src/process.rs:10-40 | a spawn fails or adds a running child whose pid is not that of an uncollected one |
| Host.Kernel.WaitPid | src/main.rs:200-211 | children that departed since the last call are zombies now; one zombie is collected if there is one, otherwise there is none |
| Managers.Manager.Start | src/ca.rs:74-100 | the manager changes as specified for a failed check, a failed spawn and a new child, and exactly these are asked of the environment |
| Managers.Manager.Stop | src/ca.rs:102-113 | pid, stamp and stage are cleared; a tracked child is handed to `graceful_kill`, whose calls are the only ones made, and the call lasts at least the grace period |
| Managers.Manager.IsDead | src/ca.rs:53-57 | true exactly of a halted manager that holds a pid which a poll finds gone; never if the pid is that of an uncollected child |
| Managers.Manager.SetState | src/vm.rs:41-47 | the stage is set, and becoming ready is stamped with the clock |
| Managers.Manager.MarkDead | src/vm.rs:59-64 | one more crash, no pid, idle, no stamp |
| Managers.Manager.MaybeResetCrashCount | src/vm.rs:67-73 | the count is cleared exactly if the stamp is 60 s old |
| Daemons.Daemon.constructor | src/main.rs:95-109 | the initial state of the protocol, with empty history |
| Daemons.Daemon.HandleChildDeath | src/main.rs:216-244 | the new state is that of the protocol for the spawn outcome met |
| Daemons.Daemon.CollectOne | src/main.rs:200-211 | one turn of the reap loop records its steps, lowers the bound if it collects and otherwise leaves no zombie |
| Daemons.Daemon.ReapChildren | src/main.rs:197-214 | the loop terminates, leaves no zombie, restarts at most `max(0, 4 - crashes)` CAs, does nothing but let children exit and collect them, and reports whether it collected any |
| Daemons.Daemon.AdvancePhase | src/startup.rs:25-116 | the phase, the managers and the children are as the protocol says for the answers met, and exactly these answers were asked for |
| Daemons.Daemon.AdvanceStartup | src/startup.rs:25-116 | the daemon stays in step with its history, extended by one startup step, in state and in what it asked |
| Daemons.Daemon.RunHealthCheck | src/main.rs:166-182 | the new state is that of the protocol for the probe outcome met |
| Daemons.Daemon.ResetCrashCounts | src/main.rs:184-186 | the daemon stays in step with its history, extended by one reset |
| Daemons.Daemon.DispatchRequest | src/ipc.rs:94-130 | a start request is answered `ok` exactly if its manager gained a running child, the other manager staying as it is; a stop request leaves the named managers idle and their children told to terminate, the CA's before the VM's; every other request changes nothing and is `ok` exactly for a query |
| Daemons.Daemon.HandleLine | src/ipc.rs:43-62 | one request line is one command of the history, with that effect on the states before and after it, and the reply reports it |
| Daemons.Daemon.HandleClient | src/ipc.rs:22-67 | the replies answer the served requests one each, in order, and stop short exactly at the first reply to a well-formed request that cannot be written; each is one command of the history with its effect |
| Daemons.Daemon.ShutDown | src/main.rs:189-193 | both children are stopped and forgotten; all signals to the CA's child come before those to the VM's; each takes at least the grace period |
| Daemons.Daemon.PollSignals | src/main.rs:131-150 | children are collected, completely, exactly if the pipe had a notice of a death, and the loop stops exactly on a notice of shutdown |
| Daemons.Daemon.PollClients | src/main.rs:152-161 | the requests of a waiting client are served, as above; without a client nothing happens |
| Daemons.Daemon.Iterate | src/main.rs:113-187 | a turn adds to the history a complete collection exactly if there was a notice of a death, then the requests of the client, if any, then one startup step, one health check and one reset; a shutdown notice, and only that, ends it after the collection |
| Daemons.Daemon.Serve | src/main.rs:113-194 | the history added is a run of the loop, turn by turn in accord with the notices and the clients there were; only a shutdown notice ends it, and then nothing is tracked; ownership is sound, the restart budget and the health rate are kept |
| Daemons.RunGuarantees | src/main.rs:113-187 | ownership, restart budget, single readiness and health rate hold of every run |
| Protocol.VsockDeadline | src/startup.rs:57-59 | the deadline is not before now and not after now plus both waits, although the sum wraps at 64 bits |
| Ipc.PiecesCut | src/ipc.rs:31-38 | the capped reader conserves bytes; every piece is non-empty, within the cap, and ends at a newline, at the cap or at the end |
| Ipc.CuttingIsUnique | src/ipc.rs:31-38 | no other cutting of the stream has these properties |
| Ipc.PiecesAreLinesIffTheyFit | src/ipc.rs:11-14 | the pieces are the plain lines if and only if every line with its newline fits under the cap |
| Ipc.EveryPieceIsServed | src/ipc.rs:31-42 | of any closed stream, exactly the pieces before the first invalid one that are not blank after trimming are served, in order |
| Ipc.StallLosesOnlyThePartialPiece | src/ipc.rs:34-38 | of any stream that stalls, an incomplete last piece is not served either |
| Ipc.TrimShape | src/ipc.rs:39-39 | a piece is its trimmed form, then carriage returns, then newlines, the trimmed form ending in neither |
| Ipc.TrimIsDetermined | src/ipc.rs:39-39 | no other form has that property |
| Ipc.LineIsServed | src/ipc.rs:31-45 | a line of valid text under the cap, ended by a newline with or without a carriage return, is served whole, or skipped if it is empty, and reading goes on behind it |
| Ipc.SentIsServed | src/ipc.rs:19-45 | what a client sends line by line, with either line ending, is served request by request, whole and in order |
| Ipc.ValidTextReadsValidly | src/ipc.rs:34-38 | valid UTF-8 is read as valid pieces if and only if every piece after the first begins with a byte that is not a continuation byte |
| Ipc.ValidTextIsServedIffUncut | src/ipc.rs:31-42 | a closed stream of valid UTF-8 is served in full if and only if the cap never cuts a character in two |
| Ipc.FittingTextIsServed | src/ipc.rs:31-42 | a closed stream of valid UTF-8 whose lines all fit under the cap has every non-blank line served, in order |
| Ipc.CutCharacterDropsAll | src/ipc.rs:34-38 | if the first read ends inside a character of valid text, nothing is served although there was something to serve |
| Ipc.StraddlingTextIsDropped | src/ipc.rs:34-38 | such text exists: a two-byte character across byte 65536 |
| Utf8.ValidCut | src/ipc.rs:34-34 | a prefix of valid UTF-8 is valid exactly if the cut is not in front of a continuation byte, and then the rest is valid |
| Utf8.ValidExactlyIfEncoded | src/ipc.rs:34-34 | the bytes accepted as text are exactly the encodings of sequences of Unicode scalar values |
| LogTail.TailRoundTrip | src/log_collector.rs:5-13 | splitting a tail gives back the last `min(n, L)` lines if and only if the last is not empty and no other ends in a carriage return |
| LogTail.WrittenLinesAreRead | src/log_collector.rs:10-10 | lines written with "\n" or "\r\n" are read back as they were |
| LogTail.TailOfWritten | src/log_collector.rs:5-13 | so a tail of such a log is its last `min(n, L)` lines joined by newlines |
| LogTail.TailsCompose | src/log_collector.rs:10-12 | `tail(tail(c, n), m) = tail(c, min(n, m))` for all `m` if and only if the same condition holds or the tail is one empty line |
| LogTail.PlainTextIsFaithful | src/log_collector.rs:10-12 | text without carriage returns and with a non-empty last line meets the condition for every `n` |
| LogTail.LinesJoinBack | src/log_collector.rs:10-12 | without carriage returns, splitting and joining loses only a final newline |
| LogTail.TailIsASuffix | src/log_collector.rs:5-13 | without carriage returns a tail, with the final newline put back, is a suffix of the file |

## Left out

- TCP, vsock and HTTP exchanges, process spawning, file checks (`validate_images`, the CA binary) and log rotation: only their outcomes appear, chosen freely by the environment.
- JSON parsing and printing, `handle_status`, the fields of replies other than `ok`, and `Config` loading: the parser is a function parameter of the daemon, configuration values are parameters of the run.
- Signal handlers, the self-pipe, socket inheritance and the poll timeout: a turn starts with "a child died" and "shut down" as free choices, and any time may pass between turns.
- `kill_tree` and `pkill` in the VM's `stop`: further signals to a process that was already handed to `graceful_kill`, and to grandchildren, which are not in the model.
- Panics when adding a duration to a clock reading overflows: clock readings are naturals.
- Managers.Manager.MarkDead: does not model 32-bit wrap-around of the crash count, because it needs 2^32 tracked deaths in one run (`CrashesCountDeaths`).
- Daemons.Daemon.AdvancePhase: says nothing of a manager that is halted and yet holds a pid, the case of the two recovery branches, because no reachable state has one (`NeverDead`).
- Daemons.Daemon.Serve: returns after a given number of turns if no signal came, because a loop that never ends cannot be stated here; the history theorems cover every prefix of an endless run.
- Exits of children between two `waitpid` calls: in the program a child may exit whenever the daemon sleeps; it is noted as departed and enters the history as a zombie at the next `waitpid`, the only call that can tell. In the protocol exits may come anywhere.
- The cap on requested tail lines and the choice of log file in `handle_tail_log`, and the text returned for an unreadable file: one expression each.
