/**
 The TCP health monitor.  Two incremental counters decide when the CA is restarted; the lemmas
 show that they are a fast form of a specification that looks at the whole probe history.
 */
module Health {
  import opened Basics

  /** What a connection attempt to the CA port came back with. */
  datatype Outcome = Connected | Refused | TimedOut | OtherError

  datatype Verdict = Healthy | Degraded(failures: nat) | RestartNeeded

  datatype Counters = Counters(failures: nat, timeouts: nat)

  const TIMEOUT_THRESHOLD: nat := 10

  const FRESH := Counters(0, 0)

  /** One probe: the new counters and the verdict. */
  function Probe(threshold: nat, k: Counters, o: Outcome): (Counters, Verdict) {
    match o
    case Connected => (FRESH, Healthy)
    case Refused =>
      if k.failures + 1 >= threshold then (Counters(0, 0), RestartNeeded)
      else (Counters(k.failures + 1, 0), Degraded(k.failures + 1))
    case TimedOut =>
      if k.timeouts + 1 >= TIMEOUT_THRESHOLD then (Counters(k.failures, 0), RestartNeeded)
      else (Counters(k.failures, k.timeouts + 1), Healthy)
    case OtherError => (k, Healthy)
  }

  /** The monitor as the daemon holds it: counters updated in place by each probe. */
  class HealthMonitor {
    const failThreshold: nat
    const timeoutThreshold: nat := TIMEOUT_THRESHOLD
    var consecutiveFailures: nat
    var consecutiveTimeouts: nat

    function Value(): Counters
      reads this
    {
      Counters(consecutiveFailures, consecutiveTimeouts)
    }

    constructor (failThreshold: nat)
      ensures this.failThreshold == failThreshold && Value() == FRESH
    {
      this.failThreshold := failThreshold;
      consecutiveFailures, consecutiveTimeouts := 0, 0;
    }

    method ProbeOnce(o: Outcome) returns (v: Verdict)
      modifies this
      ensures (Value(), v) == Probe(failThreshold, old(Value()), o)
    {
      match o {
        case Connected =>
          consecutiveFailures := 0;
          consecutiveTimeouts := 0;
          v := Healthy;
        case Refused =>
          consecutiveTimeouts := 0;
          consecutiveFailures := consecutiveFailures + 1;
          if consecutiveFailures >= failThreshold {
            consecutiveFailures := 0;
            v := RestartNeeded;
          } else {
            v := Degraded(consecutiveFailures);
          }
        case TimedOut =>
          consecutiveTimeouts := consecutiveTimeouts + 1;
          if consecutiveTimeouts >= timeoutThreshold {
            consecutiveTimeouts := 0;
            v := RestartNeeded;
          } else {
            v := Healthy;
          }
        case OtherError =>
          v := Healthy;
      }
    }
  }

  // ---------------------------------------------------------------- history specification

  /** A threshold of zero acts like one: the first refusal already reaches it. */
  function Period(threshold: nat): (t: nat)
    ensures t >= 1
  {
    Max(1, threshold)
  }

  /** Refusals since the last successful connection. */
  function RefusalsSince(h: seq<Outcome>): nat {
    if h == [] then 0 else
    var rest := RefusalsSince(h[..|h| - 1]);
    match h[|h| - 1]
    case Connected => 0
    case Refused => rest + 1
    case _ => rest
  }

  /** Timeouts since the last successful connection or refusal. */
  function TimeoutsSince(h: seq<Outcome>): nat {
    if h == [] then 0 else
    var rest := TimeoutsSince(h[..|h| - 1]);
    match h[|h| - 1]
    case Connected => 0
    case Refused => 0
    case TimedOut => rest + 1
    case OtherError => rest
  }

  /** The counters after a whole history of probes. */
  function Replay(threshold: nat, h: seq<Outcome>): Counters {
    if h == [] then FRESH
    else Probe(threshold, Replay(threshold, h[..|h| - 1]), h[|h| - 1]).0
  }

  lemma ModSuccessor(r: nat, t: nat)
    requires t >= 1
    ensures (r + 1) % t == if r % t + 1 == t then 0 else r % t + 1
  {
    var q, m := r / t, r % t;
    assert r == q * t + m;
    if m + 1 == t {
      assert r + 1 == (q + 1) * t;
      ModOfParts(q + 1, 0, t);
    } else {
      ModOfParts(q, m + 1, t);
    }
  }

  lemma ModOfParts(q: nat, m: nat, t: nat)
    requires m < t
    ensures (q * t + m) % t == m
  {
    var n := q * t + m;
    var d := q - n / t;
    DifferenceTimes(q, n / t, t);
    SmallMultipleIsZero(d, t, n % t - m);
  }

  lemma DifferenceTimes(a: int, b: int, t: int)
    ensures (a - b) * t == a * t - b * t
  {}

  lemma SmallMultipleIsZero(d: int, t: int, r: int)
    requires d * t == r && -t < r < t
    ensures r == 0
  {}

  /** One probe on counters that are `r` and `t` modulo their thresholds. */
  lemma ProbeModulo(threshold: nat, r: nat, t: nat, o: Outcome)
    ensures Probe(threshold, Counters(r % Period(threshold), t % TIMEOUT_THRESHOLD), o).0 ==
            match o
            case Connected => FRESH
            case Refused => Counters((r + 1) % Period(threshold), 0)
            case TimedOut => Counters(r % Period(threshold), (t + 1) % TIMEOUT_THRESHOLD)
            case OtherError => Counters(r % Period(threshold), t % TIMEOUT_THRESHOLD)
  {
    ModSuccessor(r, Period(threshold));
    ModSuccessor(t, TIMEOUT_THRESHOLD);
  }

  /** The incremental counters are the history counts modulo their thresholds. */
  lemma {:induction false} CountersRefineHistory(threshold: nat, h: seq<Outcome>)
    ensures Replay(threshold, h) ==
            Counters(RefusalsSince(h) % Period(threshold), TimeoutsSince(h) % TIMEOUT_THRESHOLD)
  {
    if h != [] {
      hide Probe, Period;
      var front := h[..|h| - 1];
      CountersRefineHistory(threshold, front);
      ProbeModulo(threshold, RefusalsSince(front), TimeoutsSince(front), h[|h| - 1]);
      ZeroModulo(Period(threshold));
    } else {
      ZeroModulo(Period(threshold));
    }
  }

  lemma ZeroModulo(t: nat)
    requires t >= 1
    ensures 0 % t == 0
  {}

  /** The verdict of the probe `o` that follows the history `h`. */
  function VerdictAfter(threshold: nat, h: seq<Outcome>, o: Outcome): Verdict {
    Probe(threshold, Replay(threshold, h), o).1
  }

  /**
   A restart is asked for exactly when the count just bumped is a multiple of its threshold;
   Degraded carries the running count of refusals; every other probe is reported healthy.
   */
  lemma VerdictRefinesHistory(threshold: nat, h: seq<Outcome>, o: Outcome)
    ensures VerdictAfter(threshold, h, o) == RestartNeeded <==>
            || (o == Refused && RefusalsSince(h + [o]) % Period(threshold) == 0)
            || (o == TimedOut && TimeoutsSince(h + [o]) % TIMEOUT_THRESHOLD == 0)
    ensures forall n :: VerdictAfter(threshold, h, o) == Degraded(n) <==>
            o == Refused && n != 0 && n == RefusalsSince(h + [o]) % Period(threshold)
  {
    assert (h + [o])[..|h|] == h;
    CountersRefineHistory(threshold, h);
    ModSuccessor(RefusalsSince(h), Period(threshold));
    ModSuccessor(TimeoutsSince(h), TIMEOUT_THRESHOLD);
  }

  // ---------------------------------------------------------------- probe classes do not interfere

  /** The history without the outcomes of one class. */
  function Without(h: seq<Outcome>, o: Outcome): (r: seq<Outcome>)
    ensures o !in r
  {
    if h == [] then [] else
    var rest := Without(h[..|h| - 1], o);
    if h[|h| - 1] == o then rest else rest + [h[|h| - 1]]
  }

  /** Verdicts of the probes whose outcome lies in `classes`, in order. */
  function Verdicts(threshold: nat, h: seq<Outcome>, classes: set<Outcome>): seq<Verdict> {
    if h == [] then [] else
    var front, last := h[..|h| - 1], h[|h| - 1];
    var rest := Verdicts(threshold, front, classes);
    if last in classes then rest + [VerdictAfter(threshold, front, last)] else rest
  }

  lemma VerdictsAppend(threshold: nat, h: seq<Outcome>, o: Outcome, classes: set<Outcome>)
    ensures Replay(threshold, h + [o]) == Probe(threshold, Replay(threshold, h), o).0
    ensures Verdicts(threshold, h + [o], classes) ==
            Verdicts(threshold, h, classes) + if o in classes then [VerdictAfter(threshold, h, o)] else []
  {
    assert (h + [o])[..|h|] == h;
  }

  /** Deleting every "other" error changes no remaining verdict. */
  lemma {:induction false} OtherErrorsDoNotMatter(threshold: nat, h: seq<Outcome>)
    ensures Replay(threshold, Without(h, OtherError)) == Replay(threshold, h)
    ensures Verdicts(threshold, Without(h, OtherError), {Connected, Refused, TimedOut}) ==
            Verdicts(threshold, h, {Connected, Refused, TimedOut})
  {
    if h != [] {
      var front, last := h[..|h| - 1], h[|h| - 1];
      OtherErrorsDoNotMatter(threshold, front);
      if last != OtherError {
        VerdictsAppend(threshold, Without(front, OtherError), last, {Connected, Refused, TimedOut});
      }
    }
  }

  /** Deleting every timeout changes no verdict of a refused probe. */
  lemma {:induction false} TimeoutsDoNotAffectRefusals(threshold: nat, h: seq<Outcome>)
    ensures Replay(threshold, Without(h, TimedOut)).failures == Replay(threshold, h).failures
    ensures Verdicts(threshold, Without(h, TimedOut), {Refused}) == Verdicts(threshold, h, {Refused})
  {
    if h != [] {
      var front, last := h[..|h| - 1], h[|h| - 1];
      TimeoutsDoNotAffectRefusals(threshold, front);
      if last != TimedOut {
        VerdictsAppend(threshold, Without(front, TimedOut), last, {Refused});
      }
    }
  }

  // ---------------------------------------------------------------- restarts are paid for by probes

  /** Fewest probes that can separate two restart verdicts. */
  function Price(threshold: nat): (m: nat)
    ensures m >= 1
  {
    Min(Period(threshold), TIMEOUT_THRESHOLD)
  }

  /**
   The potential argument behind the restart rate: one probe raises
   `restarts * price + failures + timeouts` by at most one.
   */
  lemma ProbePaysForRestart(threshold: nat, k: Counters, o: Outcome, restarts: nat)
    requires k.failures < Period(threshold) && k.timeouts < TIMEOUT_THRESHOLD
    ensures var (k', v) := Probe(threshold, k, o);
            && k'.failures < Period(threshold) && k'.timeouts < TIMEOUT_THRESHOLD
            && (if v == RestartNeeded then restarts + 1 else restarts) * Price(threshold)
               + k'.failures + k'.timeouts
               <= restarts * Price(threshold) + k.failures + k.timeouts + 1
  {
    assert (restarts + 1) * Price(threshold) == restarts * Price(threshold) + Price(threshold);
  }
}
