/** No interleaving of app/api/ws/events.py gets stuck: from every reachable state the service can come to rest. */
module EventRest {
  import opened Options
  import opened Events
  import opened EventRuns
  import opened EventTasks

  /** Every handler is gone, no broadcast is under way and no polling task is left. */
  predicate AtRest(s: Server) {
    (forall ws :: ws in s.handlers ==> s.handlers[ws] == Exited) && s.sends == map[] && s.tasks == {}
  }

  function Open(s: Server): set<Ws> { set ws | ws in s.handlers && s.handlers[ws] != Exited }

  function Busy(s: Server): set<Ws> {
    set ws | ws in s.handlers && (s.handlers[ws] == Accepting || s.handlers[ws] == Serving)
  }

  function Distance(s: Server): nat { |Open(s)| + |Busy(s)| + |s.sends.Keys| + |s.tasks| }

  lemma Smaller<T>(a: set<T>, b: set<T>)
    requires a <= b
    ensures |a| <= |b| && (a != b ==> |a| < |b|)
  {
    assert |b| == |a| + |b - a| by { assert b == a + (b - a); }
  }

  /** Something has ended and nothing has begun. */
  predicate Shrinks(s: Server, s': Server) {
    && Open(s') <= Open(s) && Busy(s') <= Busy(s) && s'.sends.Keys <= s.sends.Keys && s'.tasks <= s.tasks
    && (Open(s') != Open(s) || Busy(s') != Busy(s) || s'.sends.Keys != s.sends.Keys || s'.tasks != s.tasks)
  }

  lemma Closer(s: Server, s': Server)
    requires Shrinks(s, s')
    ensures Distance(s') < Distance(s)
  {
    Smaller(Open(s'), Open(s));
    Smaller(Busy(s'), Busy(s));
    Smaller(s'.sends.Keys, s.sends.Keys);
    Smaller(s'.tasks, s.tasks);
  }

  lemma PhaseShrinks(s: Server, s': Server, ws: Ws, p: Phase)
    requires ws in s.handlers && s'.handlers == s.handlers[ws := p] && s'.sends == s.sends && s'.tasks == s.tasks
    requires s.handlers[ws] != Exited && (p == Exited || (p.Stopping? && s.handlers[ws] == Serving))
    ensures Shrinks(s, s')
  {
    if p == Exited {
      assert ws in Open(s) && ws !in Open(s');
    } else {
      assert ws in Busy(s) && ws !in Busy(s');
    }
  }

  lemma HandlerEnds(s: Server, ws: Ws) returns (e: Event)
    requires Inv(s) && ws in s.handlers && s.handlers[ws] != Exited
    requires s.handlers[ws].Stopping? ==> s.tasks == {}
    ensures Enabled(s, e) && Shrinks(s, Next(s, e))
  {
    hide Shrinks, Removed, ClientCount;
    if s.handlers[ws] == Accepting {
      e := AcceptFails(ws);
      PhaseShrinks(s, Next(s, e), ws, Exited);
    } else if s.handlers[ws] == Serving {
      e := Finish(ws);
      Departs(s, ws);
    } else {
      e := StopDone(ws);
      PhaseShrinks(s, Next(s, e), ws, Exited);
    }
  }

  lemma Departs(s: Server, ws: Ws)
    requires Enabled(s, Finish(ws))
    ensures Shrinks(s, Next(s, Finish(ws)))
  {
    hide Shrinks, Removed, ClientCount, Next;
    Finishes(s, ws);
    PhaseShrinks(s, Next(s, Finish(ws)), ws, Next(s, Finish(ws)).handlers[ws]);
  }

  lemma OtherEnds(s: Server) returns (e: Event)
    requires Inv(s) && !AtRest(s) && Busy(s) == {} && (Open(s) == {} || s.tasks != {})
    ensures Enabled(s, e) && Shrinks(s, Next(s, e))
  {
    if s.tasks != {} {
      var t :| t in s.tasks;
      e := TaskEnds(t);
      assert !s.running by {
        assert forall ws :: ws in s.handlers ==> s.handlers[ws] != Serving by {
          assert forall ws :: ws in s.handlers && s.handlers[ws] == Serving ==> ws in Busy(s);
        }
      }
    } else {
      assert forall ws :: ws in s.handlers && s.handlers[ws] != Exited ==> ws in Open(s);
      var b :| b in s.sends;
      e := Abandon(b);
      assert b !in Next(s, e).sends;
    }
  }

  /** Some step that ends something is always possible. */
  lemma SomethingEnds(s: Server) returns (e: Event)
    requires Inv(s) && !AtRest(s)
    ensures Enabled(s, e) && Distance(Next(s, e)) < Distance(s)
  {
    hide Shrinks, Distance, Inv, Enabled, Next;
    if ws :| ws in Busy(s) {
      e := HandlerEnds(s, ws);
    } else if Open(s) != {} && s.tasks == {} {
      var ws :| ws in Open(s);
      e := HandlerEnds(s, ws);
    } else {
      e := OtherEnds(s);
    }
    Closer(s, Next(s, e));
  }

  /**
   * Every run can be continued to rest: no handler waits for a task that cannot end, no task
   * goes on for ever, and at rest the table is empty and the poller off.
   */
  lemma {:induction false} CanComeToRest(es: seq<Event>) returns (more: seq<Event>)
    requires Run(es)
    ensures Run(es + more) && AtRest(After(es + more))
    ensures After(es + more).clients == map[] && !After(es + more).running
    decreases Distance(After(es))
  {
    hide Inv, Enabled, Next, Distance;
    if AtRest(After(es)) {
      more := [];
      assert es + more == es;
      AllQuiet(es);
    } else {
      Lifecycle(es);
      var e := SomethingEnds(After(es));
      Extend(es, e, After(es));
      var rest := CanComeToRest(es + [e]);
      more := [e] + rest;
      assert es + more == es + [e] + rest;
    }
  }
}
