/**
 The order in which the main loop takes its steps.  The theorems about histories do not need it;
 it says which histories the daemon can produce, so that a run shown to exist is one of the loop.
 */
module Loops {
  import opened Protocol
  import opened Ownership
  import opened Startup

  /** Exits seen by `waitpid`, each followed by the collection of one child. */
  predicate Collecting(es: seq<Event>) {
    es == [] ||
    (|es| >= 2 && Collecting(es[..|es| - 2]) && es[|es| - 2].action.Exits? && es[|es| - 1].action.Reap?)
  }

  /** The steps of one `reap_children` call: its last `waitpid` collects nothing.  No call, no steps. */
  predicate ReapCall(es: seq<Event>) {
    es == [] || (es[|es| - 1].action.Exits? && Collecting(es[..|es| - 1]))
  }

  predicate Commands(es: seq<Event>) { forall i :: 0 <= i < |es| ==> es[i].action.Handle? }

  /** A `reap_children` call after history `h` leaves no zombie behind. */
  predicate Drains(r: Run, h: seq<Event>, es: seq<Event>) {
    ReapCall(es) && (es != [] ==> After(r, h + es).procs.zombies == {})
  }

  /** One turn: collections, then requests, then one startup step, one health check and one reset. */
  datatype Turn = Turn(reaps: seq<Event>, requests: seq<Event>, advance: Event, check: Event, reset: Event)
  {
    function Events(): seq<Event> { reaps + requests + [advance] + [check] + [reset] }

    predicate InOrder() {
      && Commands(requests)
      && advance.action.Advance? && check.action.HealthCheck? && reset.action.ResetCounts?
    }
  }

  function Flatten(ts: seq<Turn>): seq<Event> {
    if ts == [] then [] else Flatten(ts[..|ts| - 1]) + ts[|ts| - 1].Events()
  }

  /** After history `h` the loop takes the turns `ts`. */
  predicate TakesTurns(r: Run, h: seq<Event>, ts: seq<Turn>) {
    ts == [] ||
    (var front, t := ts[..|ts| - 1], ts[|ts| - 1];
     TakesTurns(r, h, front) && t.InOrder() && Drains(r, h + Flatten(front), t.reaps))
  }

  lemma LoopsExtend(r: Run, h: seq<Event>, ts: seq<Turn>, t: Turn)
    ensures Flatten(ts + [t]) == Flatten(ts) + t.Events()
    ensures TakesTurns(r, h, ts + [t]) <==> TakesTurns(r, h, ts) && t.InOrder() && Drains(r, h + Flatten(ts), t.reaps)
  {
    assert (ts + [t])[..|ts|] == ts;
  }

  /** The history of a run of the main loop so far. */
  predicate LoopRun(r: Run, ts: seq<Turn>) { Legal(r, Flatten(ts)) && TakesTurns(r, [], ts) }

  /** A run of the main loop that a shutdown signal has ended; children are collected once more before. */
  datatype Session = Session(turns: seq<Turn>, reaps: seq<Event>, shutdown: Event)
  {
    function Events(): seq<Event> { Flatten(turns) + reaps + [shutdown] }

    predicate Follows(r: Run, h: seq<Event>) {
      TakesTurns(r, h, turns) && Drains(r, h + Flatten(turns), reaps) && shutdown.action.Shutdown?
    }
  }

  // ---------------------------------------------------------------- startup begins before any child can die

  predicate OnlyReaps(h: seq<Event>) { forall i :: 0 <= i < |h| ==> h[i].action.Reap? || h[i].action.Exits? }

  lemma {:induction false} CollectingOnlyReaps(es: seq<Event>)
    requires Collecting(es)
    ensures OnlyReaps(es)
  {
    if es != [] {
      var front := es[..|es| - 2];
      CollectingOnlyReaps(front);
      assert forall i :: 0 <= i < |front| ==> es[i] == front[i];
    }
  }

  /** Before the daemon has done anything else there is no child to collect. */
  lemma {:induction false} NothingToReapYet(r: Run, h: seq<Event>)
    requires Legal(r, h) && OnlyReaps(h)
    ensures After(r, h).procs.Unreaped() == {}
    ensures forall i :: 0 <= i < |h| ==> !h[i].action.Reap?
  {
    if h != [] {
      var front := h[..|h| - 1];
      assert forall i :: 0 <= i < |front| ==> h[i] == front[i];
      NothingToReapYet(r, front);
    }
  }

  lemma AdvanceLeavesVmStarting(c: Config, s: State, e: Event)
    requires Sound(s) && e.action.Advance?
    ensures !Step(c, s, e).phase.VmStarting?
  {}

  /** After any startup step the startup machine has left its first phase for good. */
  lemma AdvanceIsPast(r: Run, h: seq<Event>, n: nat, d: nat)
    requires Legal(r, h) && n < d <= |h| && h[n].action.Advance?
    ensures !After(r, h[..d]).phase.VmStarting?
  {
    hide Step, After, Legal, Tally, Sound, Enabled;
    PrefixLegal(r, h, n);
    PrefixLegal(r, h, d);
    assert h[..n + 1] == h[..n] + [h[n]] && h[..d][..n + 1] == h[..n + 1];
    Extend(r, h[..n], h[n]);
    ReachableSound(r, h[..n]);
    AdvanceLeavesVmStarting(r.config, After(r, h[..n]), h[n]);
    PhasesAreMonotone(r, h[..d], n + 1);
  }

  lemma FirstTurnReapsNothing(r: Run, t: Turn, d: nat)
    requires Legal(r, t.Events()) && t.InOrder() && ReapCall(t.reaps) && d < |t.Events()|
    ensures !t.Events()[d].action.Reap?
  {
    hide After, Legal, ReapCall;
    var h := t.Events();
    OnlyReapsInCall(t.reaps);
    PrefixLegal(r, h, |t.reaps|);
    assert h[..|t.reaps|] == t.reaps;
    NothingToReapYet(r, t.reaps);
  }

  /** In a run of the loop no child is collected while the startup machine is in its first phase. */
  lemma {:induction false} NoReapWhileVmStarting(r: Run, ts: seq<Turn>, d: nat)
    requires LoopRun(r, ts) && d < |Flatten(ts)| && Flatten(ts)[d].action.Reap?
    ensures !After(r, Flatten(ts)[..d]).phase.VmStarting?
  {
    hide After, Legal, Drains, Turn.InOrder, Turn.Events;
    if |ts| == 1 {
      assert ts[..0] == [] && Flatten(ts) == ts[0].Events();
      assert Drains(r, [] + [], ts[0].reaps);
      DrainsCalls(r, [] + [], ts[0].reaps);
      FirstTurnReapsNothing(r, ts[0], d);
    } else {
      var h, front := Flatten(ts), ts[..|ts| - 1];
      PrefixLegal(r, h, |Flatten(front)|);
      assert h[..|Flatten(front)|] == Flatten(front);
      if d < |Flatten(front)| {
        assert h[..d] == Flatten(front)[..d];
        NoReapWhileVmStarting(r, front, d);
      } else {
        var h1, t := Flatten(front[..|front| - 1]), front[|front| - 1];
        assert TakesTurns(r, [], front);
        var n := AdvanceOf(h1, t);
        AdvanceIsPast(r, h, n, d);
      }
    }
  }

  lemma DrainsCalls(r: Run, h: seq<Event>, es: seq<Event>)
    requires Drains(r, h, es)
    ensures ReapCall(es)
  {}

  lemma AdvanceOf(h: seq<Event>, t: Turn) returns (n: nat)
    requires t.InOrder()
    ensures n < |h + t.Events()| && (h + t.Events())[n].action.Advance?
  {
    n := |h| + |t.reaps| + |t.requests|;
  }

  lemma OnlyReapsInCall(es: seq<Event>)
    requires ReapCall(es)
    ensures OnlyReaps(es)
  {
    if es != [] {
      var front := es[..|es| - 1];
      CollectingOnlyReaps(front);
      assert forall i :: 0 <= i < |front| ==> es[i] == front[i];
    }
  }
}
