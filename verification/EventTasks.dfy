/**
 How many polling tasks there can be at once, over every interleaving: counting those nobody has
 cancelled, and counting all that have not ended.
 */
module EventTasks {
  import opened Options
  import opened Events
  import opened EventRuns

  // ---------- At most one polling task? ----------

  /** Some handler waits for task `t` to end. */
  ghost predicate Awaited(s: Server, t: nat) { exists ws :: At(s, ws, Stopping(t)) }

  /** A task asked to stop that has not ended is waited for; and handlers wait for such tasks only. */
  ghost predicate StopsAwaited(s: Server) {
    && (forall t :: t in s.tasks && t in s.cancelled ==> Awaited(s, t))
    && (forall ws :: ws in s.handlers && s.handlers[ws].Stopping? ==> s.handlers[ws].task in s.cancelled)
  }

  lemma StillWaiting(s: Server, e: Event, ws: Ws, t: nat)
    requires Enabled(s, e) && At(s, ws, Stopping(t)) && t in s.tasks
    ensures At(Next(s, e), ws, Stopping(t))
  {
    hide Sent, Skipped, Commanded, StateOf, ClientCount;
  }

  lemma StopsStep(s: Server, e: Event)
    requires Inv(s) && Enabled(s, e) && StopsAwaited(s)
    ensures StopsAwaited(Next(s, e))
  {
    hide Sent, Skipped, Commanded, StateOf, ClientCount;
    var s' := Next(s, e);
    forall t | t in s'.tasks && t in s'.cancelled ensures Awaited(s', t) {
      if t in s.tasks && t in s.cancelled {
        var ws :| At(s, ws, Stopping(t));
        StillWaiting(s, e, ws, t);
      } else if e.Finish? {
        assert At(s', e.ws, Stopping(t));
      }
    }
  }

  lemma {:induction false} StopsAreAwaited(es: seq<Event>)
    requires Run(es)
    ensures StopsAwaited(After(es))
  {
    if es != [] {
      StopsAreAwaited(es[..|es| - 1]);
      Lifecycle(es[..|es| - 1]);
      StopsStep(After(es[..|es| - 1]), es[|es| - 1]);
    }
  }

  /** The tasks nobody has cancelled. */
  function Live(s: Server): set<nat> { s.tasks - s.cancelled }

  /** A registration that finds the table emptied by dropped clients while the poller still runs. */
  predicate Orphans(s: Server, e: Event) {
    e.Register? && s.clients == map[] && s.running
  }

  predicate SingleLive(s: Server) {
    Live(s) == if s.running && s.current.Some? then {s.current.value} else {}
  }

  lemma LiveRegister(s: Server, ws: Ws)
    requires Inv(s) && Enabled(s, Register(ws)) && SingleLive(s)
    ensures !Orphans(s, Register(ws)) ==> SingleLive(Next(s, Register(ws)))
    ensures Orphans(s, Register(ws)) ==> |Live(Next(s, Register(ws)))| == 2
  {
    hide Next;
    Registers(s, ws);
    if s.clients == map[] {
      assert Live(Next(s, Register(ws))) == Live(s) + {s.nextTask};
    }
  }

  lemma LiveFinish(s: Server, ws: Ws)
    requires Inv(s) && Enabled(s, Finish(ws)) && SingleLive(s)
    ensures SingleLive(Next(s, Finish(ws)))
  {
    hide Next, Removed;
    Finishes(s, ws);
    FinishInv(s, ws);
  }

  lemma LiveStep(s: Server, e: Event)
    requires Inv(s) && Enabled(s, e) && SingleLive(s)
    ensures !Orphans(s, e) ==> SingleLive(Next(s, e))
    ensures Orphans(s, e) ==> |Live(Next(s, e))| == 2
  {
    if e.Register? {
      LiveRegister(s, e.ws);
    } else if e.Finish? {
      LiveFinish(s, e.ws);
    } else if e.TaskEnds? && s.running {
      assert Live(Next(s, e)) == Live(s);
    }
  }

  /** No registration of the run is an orphaning one. */
  predicate NeverOrphans(es: seq<Event>) {
    es == [] || (NeverOrphans(es[..|es| - 1]) && !Orphans(After(es[..|es| - 1]), es[|es| - 1]))
  }

  /** At every moment of the run at most one polling task is uncancelled. */
  predicate AtMostOneLive(es: seq<Event>) {
    |Live(After(es))| <= 1 && (es == [] || AtMostOneLive(es[..|es| - 1]))
  }

  /**
   * Exactly when the service has at most one uncancelled polling task at every moment: if and
   * only if no registration finds the table empty while the poller is still running.
   */
  lemma {:induction false} OneUncancelledTaskExactly(es: seq<Event>)
    requires Run(es)
    ensures AtMostOneLive(es) <==> NeverOrphans(es)
    ensures NeverOrphans(es) ==> SingleLive(After(es))
  {
    if es != [] {
      var front := es[..|es| - 1];
      OneUncancelledTaskExactly(front);
      Lifecycle(front);
      if NeverOrphans(front) {
        LiveStep(After(front), es[|es| - 1]);
        Lifecycle(es);
        assert SingleLive(After(es)) ==> |Live(After(es))| <= 1;
      }
    }
  }

  /** Some handler still waits for the end of the task it cancelled. */
  predicate PendingStop(s: Server) {
    exists ws :: ws in s.handlers && s.handlers[ws].Stopping? && s.handlers[ws].task in s.tasks
  }

  /** A registration that starts a task before the last one has ended. */
  predicate Overlaps(s: Server, e: Event) {
    e.Register? && s.clients == map[] && (s.running || PendingStop(s))
  }

  /** No task but the current one, and that is cancelled once the poller is off. */
  predicate Settled(s: Server) {
    && s.tasks <= (if s.current.Some? then {s.current.value} else {})
    && (!s.running ==> s.tasks <= s.cancelled)
  }

  lemma UnfinishedIsPending(s: Server)
    requires StopsAwaited(s)
    ensures s.tasks * s.cancelled != {} <==> PendingStop(s)
  {
    if t :| t in s.tasks && t in s.cancelled {
      assert Awaited(s, t);
      var ws :| At(s, ws, Stopping(t));
      assert s.handlers[ws].task in s.tasks;
    }
    if PendingStop(s) {
      var ws :| ws in s.handlers && s.handlers[ws].Stopping? && s.handlers[ws].task in s.tasks;
      assert s.handlers[ws].task in s.tasks * s.cancelled;
    }
  }

  lemma SettledRegister(s: Server, ws: Ws)
    requires Inv(s) && StopsAwaited(s) && Enabled(s, Register(ws)) && Settled(s)
    ensures !Overlaps(s, Register(ws)) ==> Settled(Next(s, Register(ws)))
    ensures Overlaps(s, Register(ws)) ==> |Next(s, Register(ws)).tasks| == 2
  {
    hide Next;
    Registers(s, ws);
    if s.clients == map[] {
      var s' := Next(s, Register(ws));
      assert s'.tasks == s.tasks + {s.nextTask};
      if Overlaps(s, Register(ws)) {
        assert s.tasks == {s.current.value};
      } else {
        UnfinishedIsPending(s);
      }
    }
  }

  lemma SettledFinish(s: Server, ws: Ws)
    requires Inv(s) && Enabled(s, Finish(ws)) && Settled(s)
    ensures Settled(Next(s, Finish(ws)))
  {
    hide Next, Removed;
    Finishes(s, ws);
  }

  lemma SettledStep(s: Server, e: Event)
    requires Inv(s) && StopsAwaited(s) && Enabled(s, e) && Settled(s)
    ensures !Overlaps(s, e) ==> Settled(Next(s, e))
    ensures Overlaps(s, e) ==> |Next(s, e).tasks| == 2
  {
    if e.Register? {
      SettledRegister(s, e.ws);
    } else if e.Finish? {
      SettledFinish(s, e.ws);
    }
  }

  predicate NeverOverlaps(es: seq<Event>) {
    es == [] || (NeverOverlaps(es[..|es| - 1]) && !Overlaps(After(es[..|es| - 1]), es[|es| - 1]))
  }

  /** At every moment of the run at most one polling task is unfinished, cancelled or not. */
  predicate AtMostOneTask(es: seq<Event>) {
    |After(es).tasks| <= 1 && (es == [] || AtMostOneTask(es[..|es| - 1]))
  }

  /**
   * Exactly when at most one polling task is unfinished at every moment, counting those asked
   * to stop: if and only if no registration finds the table empty while the poller runs or a
   * handler still waits for the task it cancelled.
   */
  lemma {:induction false} OneTaskExactly(es: seq<Event>)
    requires Run(es)
    ensures AtMostOneTask(es) <==> NeverOverlaps(es)
    ensures NeverOverlaps(es) ==> Settled(After(es))
  {
    if es != [] {
      var front := es[..|es| - 1];
      OneTaskExactly(front);
      Lifecycle(front);
      StopsAreAwaited(front);
      if NeverOverlaps(front) {
        SettledStep(After(front), es[|es| - 1]);
        SettledSize(After(es));
      }
    }
  }

  lemma SettledSize(s: Server)
    ensures Settled(s) ==> |s.tasks| <= 1
  {
    if Settled(s) && s.tasks != {} { assert s.tasks == {s.current.value}; }
  }

  /**
   * Nothing is left behind: once every handler is gone no cancelled task is unfinished, and if
   * no registration orphaned a task, no task is.
   */
  lemma NoTaskLeft(es: seq<Event>)
    requires Run(es) && forall ws :: ws in After(es).handlers ==> After(es).handlers[ws] == Exited
    ensures After(es).tasks * After(es).cancelled == {}
    ensures NeverOrphans(es) ==> After(es).tasks == {}
  {
    StopsAreAwaited(es);
    AllQuiet(es);
    OneUncancelledTaskExactly(es);
    var s := After(es);
    UnfinishedIsPending(s);
    assert s.tasks == Live(s) + s.tasks * s.cancelled;
  }

  // ---------- Both conditions can fail ----------

  // Two uncancelled tasks: the only client subscribes, fails to receive and is dropped, then
  // another one connects before the first one's handler notices.
  const WATCH := Subscribe(["exchange_status"], [])
  const ORPHANING := [Arrive(1), Register(1), Obey(1, WATCH), Begin(0, "exchange_status", None), Send(0, 1, false),
                      Conclude(0), Arrive(2), Register(2)]

  const C0 := Client({}, {})
  const C1 := Client({"exchange_status"}, {})
  const B0 := Sending("exchange_status", None, {1}, [], {})
  const B1 := Sending("exchange_status", None, {}, [1], {1})
  const S1 := INITIAL.(handlers := map[1 := Accepting])
  const S2 := Server(map[1 := C0], map[], map[1 := Serving], map[], true, Some(0), {0}, {}, 1)
  const S3 := S2.(clients := map[1 := C1])
  const S4 := S3.(sends := map[0 := B0])
  const S5 := S3.(sends := map[0 := B1])
  const S6 := S3.(clients := map[], removed := map[1 := C1])
  const S7 := S6.(handlers := map[1 := Serving, 2 := Accepting])

  predicate Leads(s: Server, e: Event, s': Server) { Enabled(s, e) && Next(s, e) == s' }

  lemma FirstConnects()
    ensures Leads(INITIAL, Arrive(1), S1) && Leads(S1, Register(1), S2)
  {
    SizeOne(map[], 1, C0);
  }

  lemma FirstSubscribes()
    ensures Leads(S2, Obey(1, WATCH), S3)
  {
    assert Elements(WATCH.channels) == {"exchange_status"} && Elements(WATCH.marketIds) == {};
    assert {"exchange_status"} * ALL_CHANNELS == {"exchange_status"};
    assert C0.channels + {"exchange_status"} == {"exchange_status"};
    assert Obeyed(C0, WATCH) == C1;
    assert Next(S2, Obey(1, WATCH)).clients == S3.clients;
  }

  lemma FirstFails()
    ensures Leads(S3, Begin(0, "exchange_status", None), S4) && Leads(S4, Send(0, 1, false), S5)
  {
    assert S3.clients.Keys == {1};
    assert StateOf(S4, 1) == C1 && Wants(C1, "exchange_status", None);
    assert Sent(B0, 1, false) == B1;
    assert Next(S4, Send(0, 1, false)).sends == S5.sends;
  }

  lemma FirstIsDropped()
    ensures Leads(S5, Conclude(0), S6) && Leads(S6, Arrive(2), S7)
  {
    var s := Next(S5, Conclude(0));
    assert s.clients == map[] && s.removed == S6.removed && s.sends == map[];
  }

  lemma SecondStarts()
    ensures Enabled(S7, Register(2)) && |Live(Next(S7, Register(2)))| == 2
  {
    SizeOne(map[], 2, C0);
    assert Live(Next(S7, Register(2))) == {0, 1};
  }

  /** It does happen that two polling tasks run that nobody has cancelled. */
  lemma TwoTasksReachable()
    ensures Run(ORPHANING) && |Live(After(ORPHANING))| == 2
  {
    hide After, Run, Next, Enabled;
    EmptyRun();
    FirstConnects();
    var r1 := [] + [Arrive(1)];
    Extend([], Arrive(1), INITIAL);
    var r2 := r1 + [Register(1)];
    Extend(r1, Register(1), S1);
    FirstSubscribes();
    var r3 := r2 + [Obey(1, WATCH)];
    Extend(r2, Obey(1, WATCH), S2);
    FirstFails();
    var r4 := r3 + [Begin(0, "exchange_status", None)];
    Extend(r3, Begin(0, "exchange_status", None), S3);
    var r5 := r4 + [Send(0, 1, false)];
    Extend(r4, Send(0, 1, false), S4);
    FirstIsDropped();
    var r6 := r5 + [Conclude(0)];
    Extend(r5, Conclude(0), S5);
    var r7 := r6 + [Arrive(2)];
    Extend(r6, Arrive(2), S6);
    SecondStarts();
    Extend(r7, Register(2), S7);
    assert r7 + [Register(2)] == ORPHANING;
  }

  // Two unfinished tasks: a client connects while the last handler waits for the cancelled task.
  const HASTY := [Arrive(1), Register(1), Finish(1), Arrive(2), Register(2)]
  const T3 := Server(map[], map[1 := C0], map[1 := Stopping(0)], map[], false, Some(0), {0}, {0}, 1)
  const T4 := T3.(handlers := map[1 := Stopping(0), 2 := Accepting])
  const T5 := T4.(clients := map[2 := C0], handlers := map[1 := Stopping(0), 2 := Serving], running := true,
                  current := Some(1), tasks := {0, 1}, nextTask := 2)

  lemma LastLeaves()
    ensures Leads(S2, Finish(1), T3)
  {
    hide Next;
    Finishes(S2, 1);
    assert S2.clients.Keys == {1};
    var s := Removed(S2, {1});
    assert s.clients == map[] && s.removed == map[1 := C0];
  }

  lemma AnotherArrives()
    ensures Leads(T3, Arrive(2), T4) && Leads(T4, Register(2), T5)
  {
    SizeOne(map[], 2, C0);
  }

  /** Without any orphaning registration, two polling tasks can be unfinished, one of them cancelled. */
  lemma PendingStopOverlap()
    ensures Run(HASTY) && NeverOrphans(HASTY)
    ensures |After(HASTY).tasks| == 2 && At(After(HASTY), 1, Stopping(0)) && After(HASTY).current == Some(1)
  {
    hide After, Run, Next, Enabled, NeverOrphans;
    EmptyRun();
    FirstConnects();
    LastLeaves();
    AnotherArrives();
    var r1 := [] + [Arrive(1)];
    Extend([], Arrive(1), INITIAL);
    var r2 := r1 + [Register(1)];
    Extend(r1, Register(1), S1);
    var r3 := r2 + [Finish(1)];
    Extend(r2, Finish(1), S2);
    var r4 := r3 + [Arrive(2)];
    Extend(r3, Arrive(2), T3);
    Extend(r4, Register(2), T4);
    assert r4 + [Register(2)] == HASTY;
  }

  lemma EmptyRun()
    ensures Run([]) && After([]) == INITIAL && NeverOrphans([])
  {
  }

  lemma Extend(es: seq<Event>, e: Event, s: Server)
    requires Run(es) && After(es) == s && Enabled(s, e)
    ensures Run(es + [e]) && After(es + [e]) == Next(s, e)
    ensures NeverOrphans(es + [e]) <==> NeverOrphans(es) && !Orphans(s, e)
  {
    assert (es + [e])[..|es|] == es;
  }
}
