/**
 Every interleaving of the handlers, broadcasts and the poller of app/api/ws/events.py.  The
 steps are the stretches of code between two awaits that can suspend; no lock body contains one.
 */
module EventRuns {
  import opened Options
  import opened Events

  /** Where a handler is: waiting for accept, serving, waiting for the task it cancelled, or gone. */
  datatype Phase = Accepting | Serving | Stopping(task: nat) | Exited

  /** A broadcast under way: the clients it still has to look at, those it has tried, and the dead among them. */
  datatype Sending = Sending(channel: string, marketId: Option<int>, waiting: set<Ws>, attempted: seq<Ws>,
                             dead: set<Ws>)

  /**
   * `removed` keeps the state of clients no longer in the table: a broadcast may still hold it.
   * `tasks` are the polling tasks that have not ended; those in `cancelled` were asked to.
   */
  datatype Server = Server(clients: Clients, removed: Clients, handlers: map<Ws, Phase>, sends: map<nat, Sending>,
                           running: bool, current: Option<nat>, tasks: set<nat>, cancelled: set<nat>, nextTask: nat)

  datatype Event =
    | Arrive(ws: Ws)
    | AcceptFails(ws: Ws)
    | Register(ws: Ws)
    | Obey(ws: Ws, cmd: Command)
    | Begin(b: nat, channel: string, marketId: Option<int>)
    | Skip(b: nat, ws: Ws)
    | Send(b: nat, ws: Ws, ok: bool)
    | Conclude(b: nat)
    | Abandon(b: nat)
    | Finish(ws: Ws)
    | StopDone(ws: Ws)
    | TaskEnds(task: nat)

  const INITIAL := Server(map[], map[], map[], map[], false, None, {}, {}, 0)

  predicate At(s: Server, ws: Ws, p: Phase) { ws in s.handlers && s.handlers[ws] == p }

  predicate Enabled(s: Server, e: Event) {
    match e
    case Arrive(ws) => ws !in s.handlers
    case AcceptFails(ws) => At(s, ws, Accepting)
    case Register(ws) => At(s, ws, Accepting)
    case Obey(ws, _) => At(s, ws, Serving)
    case Begin(b, _, _) => b !in s.sends
    case Skip(b, ws) => b in s.sends && ws in s.sends[b].waiting && !Wanted(s, s.sends[b], ws)
    case Send(b, ws, _) => b in s.sends && ws in s.sends[b].waiting && Wanted(s, s.sends[b], ws)
    case Conclude(b) => b in s.sends && s.sends[b].waiting == {}
    case Abandon(b) => b in s.sends
    case Finish(ws) => At(s, ws, Serving)
    case StopDone(ws) => ws in s.handlers && s.handlers[ws].Stopping? && s.handlers[ws].task !in s.tasks
    case TaskEnds(t) => t in s.tasks && (t in s.cancelled || !s.running)
  }

  function Started(s: Server): Server {
    s.(running := true, current := Some(s.nextTask), tasks := s.tasks + {s.nextTask}, nextTask := s.nextTask + 1)
  }

  /** Cancelling only asks: the task goes on until it ends, and the handler waits for that. */
  function Stopped(s: Server, ws: Ws): Server {
    s.(running := false,
       cancelled := if s.current.Some? then s.cancelled + {s.current.value} else s.cancelled,
       handlers := s.handlers[ws := if s.current.Some? then Stopping(s.current.value) else Exited])
  }

  /** Takes clients out of the table; their state objects live on. */
  function Removed(s: Server, gone: set<Ws>): Server {
    s.(clients := s.clients - gone, removed := s.removed + (map ws | ws in s.clients && ws in gone :: s.clients[ws]))
  }

  function ClientCount(cs: Clients): nat { |cs| }

  /** The state object of a client, in the table or not. */
  function StateOf(s: Server, ws: Ws): Client {
    if ws in s.clients then s.clients[ws] else if ws in s.removed then s.removed[ws] else Client({}, {})
  }

  /** The subscription check of the broadcast loop, on the client's state object as it is now. */
  predicate Wanted(s: Server, x: Sending, ws: Ws) { Wants(StateOf(s, ws), x.channel, x.marketId) }

  function Skipped(x: Sending, ws: Ws): Sending { x.(waiting := x.waiting - {ws}) }

  function Sent(x: Sending, ws: Ws, ok: bool): Sending {
    x.(waiting := x.waiting - {ws}, attempted := x.attempted + [ws], dead := if ok then x.dead else x.dead + {ws})
  }

  function Next(s: Server, e: Event): Server
    requires Enabled(s, e)
  {
    match e
    case Arrive(ws) => s.(handlers := s.handlers[ws := Accepting])
    case AcceptFails(ws) => s.(handlers := s.handlers[ws := Exited])
    case Register(ws) =>
      var s1 := s.(clients := s.clients[ws := Client({}, {})], handlers := s.handlers[ws := Serving]);
      if ClientCount(s1.clients) == 1 then Started(s1) else s1
    case Obey(ws, cmd) => s.(clients := Commanded(s.clients, ws, cmd))
    case Begin(b, ch, id) => s.(sends := s.sends[b := Sending(ch, id, s.clients.Keys, [], {})])
    case Skip(b, ws) => s.(sends := s.sends[b := Skipped(s.sends[b], ws)])
    case Send(b, ws, ok) => s.(sends := s.sends[b := Sent(s.sends[b], ws, ok)])
    case Conclude(b) => Removed(s.(sends := s.sends - {b}), s.sends[b].dead)
    case Abandon(b) => s.(sends := s.sends - {b})
    case Finish(ws) =>
      var s1 := Removed(s, {ws}).(handlers := s.handlers[ws := Exited]);
      if ClientCount(s1.clients) == 0 then Stopped(s1, ws) else s1
    case StopDone(ws) => s.(handlers := s.handlers[ws := Exited])
    case TaskEnds(t) => s.(tasks := s.tasks - {t})
  }

  predicate Run(es: seq<Event>) {
    es == [] || (Run(es[..|es| - 1]) && Enabled(After(es[..|es| - 1]), es[|es| - 1]))
  }

  /** Steps that are not enabled do not happen. */
  function After(es: seq<Event>): Server {
    if es == [] then INITIAL
    else
      var s, e := After(es[..|es| - 1]), es[|es| - 1];
      if Enabled(s, e) then Next(s, e) else s
  }

  // ---------- The handler's own steps, on the objects ----------

  /** The objects hold what the machine's state says. */
  ghost predicate Mirrors(s: Server, manager: ChannelManager, poller: MarketPoller)
    reads manager, manager.clients.Values, poller
  {
    manager.Valid() && s.clients == manager.Value() && s.running == poller.running && s.current == poller.task
  }

  /** After `accept`: register, and start the poller for the first client. */
  method Enter(manager: ChannelManager, poller: MarketPoller, ws: Ws, created: nat, ghost s: Server)
    requires Mirrors(s, manager, poller) && Enabled(s, Register(ws)) && created == s.nextTask
    modifies manager, poller
    ensures Mirrors(Next(s, Register(ws)), manager, poller)
  {
    hide Commanded, Sent, Skipped, Removed, StateOf;
    var state := manager.Connect(ws);
    assert manager.Value().Keys == manager.clients.Keys;
    SameSize(manager.Value(), manager.clients);
    if |manager.clients| == 1 {
      poller.Start(created);
    }
  }

  /** One received command. */
  method Serve(manager: ChannelManager, poller: MarketPoller, ws: Ws, cmd: Command, ghost s: Server)
    requires Mirrors(s, manager, poller) && Enabled(s, Obey(ws, cmd))
    modifies manager.clients.Values
    ensures Mirrors(Next(s, Obey(ws, cmd)), manager, poller)
  {
    manager.HandleCommand(ws, cmd);
  }

  /** The `finally` block up to its wait: unregister, and stop the poller after the last client. */
  method Leave(manager: ChannelManager, poller: MarketPoller, ws: Ws, ghost s: Server) returns (cancelled: Option<nat>)
    requires Mirrors(s, manager, poller) && Enabled(s, Finish(ws))
    modifies manager, poller
    ensures Mirrors(Next(s, Finish(ws)), manager, poller)
    ensures Next(s, Finish(ws)).handlers[ws] == if cancelled.Some? then Stopping(cancelled.value) else Exited
    ensures Next(s, Finish(ws)).cancelled == if cancelled.Some? then s.cancelled + {cancelled.value} else s.cancelled
  {
    hide Next, Enabled;
    manager.Disconnect(ws);
    cancelled := None;
    assert manager.Value().Keys == manager.clients.Keys;
    ghost var last := |manager.clients| == 0;
    assert last <==> s.clients.Keys <= {ws} by { EmptiedBy(s.clients, ws, manager.clients); }
    if |manager.clients| == 0 {
      cancelled := poller.Stop();
    }
    FinishFields(s, ws);
  }

  lemma EmptiedBy<V>(cs: Clients, ws: Ws, left: map<Ws, V>)
    requires left.Keys == cs.Keys - {ws}
    ensures |left| == 0 <==> cs.Keys <= {ws}
  {
  }

  lemma SameSize<V, W>(m: map<Ws, V>, n: map<Ws, W>)
    requires m.Keys == n.Keys
    ensures |m| == |n|
  {
    assert |m| == |m.Keys| && |n| == |n.Keys|;
  }

  // ---------- Lifecycle ----------

  predicate SomeServing(s: Server) { exists ws :: ws in s.handlers && s.handlers[ws] == Serving }

  predicate Inv(s: Server) {
    && (forall ws :: ws in s.clients ==> At(s, ws, Serving))
    && (s.clients != map[] ==> s.running)
    && (s.running ==> SomeServing(s))
    && (forall ws :: ws in s.clients ==> s.clients[ws].channels <= ALL_CHANNELS)
    && (s.running ==> s.current.Some? && s.current.value in s.tasks && s.current.value !in s.cancelled)
    && (forall t :: t in s.tasks ==> t < s.nextTask)
    && (forall t :: t in s.cancelled ==> t < s.nextTask)
    && (s.current.Some? ==> s.current.value < s.nextTask)
  }

  lemma SizeOne(cs: Clients, ws: Ws, c: Client)
    ensures |cs[ws := c]| == 1 <==> cs.Keys <= {ws}
    ensures |cs| == 0 <==> cs == map[]
  {
    var cs' := cs[ws := c];
    if cs.Keys <= {ws} {
      assert cs'.Keys == {ws};
    } else {
      var x :| x in cs.Keys && x != ws;
      assert {x, ws} <= cs'.Keys;
      SizeAtLeastTwo(cs'.Keys, x, ws);
    }
  }

  lemma SizeAtLeastTwo(s: set<Ws>, x: Ws, y: Ws)
    requires x in s && y in s && x != y
    ensures |s| >= 2
  {
    assert |s| == |s - {x}| + 1 && y in s - {x};
  }

  /** What a registration does, without the count. */
  lemma Registers(s: Server, ws: Ws)
    requires Enabled(s, Register(ws)) && ws !in s.clients
    ensures var s', cs := Next(s, Register(ws)), s.clients[ws := Client({}, {})];
            var hs := s.handlers[ws := Serving];
            s' == if s.clients == map[] then Started(s.(clients := cs, handlers := hs))
                  else s.(clients := cs, handlers := hs)
  {
    SizeOne(s.clients, ws, Client({}, {}));
  }

  /** What a departure does, without the count. */
  lemma Finishes(s: Server, ws: Ws)
    requires Enabled(s, Finish(ws))
    ensures var s' := s.(clients := s.clients - {ws}, removed := Removed(s, {ws}).removed,
                         handlers := s.handlers[ws := Exited]);
            Next(s, Finish(ws)) == if s.clients.Keys <= {ws} then Stopped(s', ws) else s'
  {
    hide Started, Stopped;
    SizeOne(s.clients - {ws}, ws, Client({}, {}));
    assert (s.clients - {ws}).Keys == s.clients.Keys - {ws};
  }

  lemma FinishFields(s: Server, ws: Ws)
    requires Enabled(s, Finish(ws))
    ensures var s', last := Next(s, Finish(ws)), s.clients.Keys <= {ws};
            && s'.clients == s.clients - {ws} && s'.running == (s.running && !last) && s'.current == s.current
            && s'.handlers[ws] == (if last && s.current.Some? then Stopping(s.current.value) else Exited)
            && s'.cancelled == if last && s.current.Some? then s.cancelled + {s.current.value} else s.cancelled
  {
    hide Next, Removed, Enabled;
    Finishes(s, ws);
  }

  lemma RegisterInv(s: Server, ws: Ws)
    requires Inv(s) && Enabled(s, Register(ws))
    ensures Inv(Next(s, Register(ws)))
  {
    hide Next;
    var s' := Next(s, Register(ws));
    Registers(s, ws);
    assert s'.handlers[ws] == Serving;
  }

  lemma FinishInv(s: Server, ws: Ws)
    requires Inv(s) && Enabled(s, Finish(ws))
    ensures Inv(Next(s, Finish(ws)))
  {
    hide Next, Removed;
    var s', left := Next(s, Finish(ws)), s.clients - {ws};
    Finishes(s, ws);
    EmptiedBy(s.clients, ws, left);
    if left != map[] {
      var other :| other in left;
      assert At(s, other, Serving) && s'.handlers[other] == Serving;
    }
  }

  lemma TableInv(s: Server, e: Event)
    requires Inv(s) && Enabled(s, e)
    requires e.Obey? || e.Begin? || e.Skip? || e.Send? || e.Conclude? || e.Abandon? || e.TaskEnds?
    ensures Inv(Next(s, e))
  {
    var s' := Next(s, e);
    assert s'.handlers == s.handlers;
    assert SomeServing(s) ==> SomeServing(s');
    if s'.clients != map[] {
      var ws :| ws in s'.clients;
      assert ws in s.clients;
    }
  }

  lemma HandlerInv(s: Server, e: Event)
    requires Inv(s) && Enabled(s, e) && (e.Arrive? || e.AcceptFails? || e.StopDone?)
    ensures Inv(Next(s, e))
  {
    KeepServing(s, Next(s, e), e.ws);
  }

  lemma InvStep(s: Server, e: Event)
    requires Inv(s) && Enabled(s, e)
    ensures Inv(Next(s, e))
  {
    match e
    case Register(ws) => RegisterInv(s, ws);
    case Finish(ws) => FinishInv(s, ws);
    case Arrive(_) => HandlerInv(s, e);
    case AcceptFails(_) => HandlerInv(s, e);
    case StopDone(_) => HandlerInv(s, e);
    case Obey(_, _) => TableInv(s, e);
    case Begin(_, _, _) => TableInv(s, e);
    case Skip(_, _) => TableInv(s, e);
    case Send(_, _, _) => TableInv(s, e);
    case Conclude(_) => TableInv(s, e);
    case Abandon(_) => TableInv(s, e);
    case TaskEnds(_) => TableInv(s, e);
  }

  lemma KeepServing(s: Server, s': Server, ws: Ws)
    requires !At(s, ws, Serving)
    requires forall x :: x in s.handlers && x != ws ==> x in s'.handlers && s'.handlers[x] == s.handlers[x]
    ensures SomeServing(s) ==> SomeServing(s')
  {
    if SomeServing(s) {
      var x :| x in s.handlers && s.handlers[x] == Serving;
      assert x in s'.handlers && s'.handlers[x] == Serving;
    }
  }

  /**
   * Over every interleaving: clients in the table belong to live handlers and hold valid
   * channels only, and while the table is not empty the poller runs.
   */
  lemma {:induction false} Lifecycle(es: seq<Event>)
    requires Run(es)
    ensures Inv(After(es))
  {
    if es != [] {
      Lifecycle(es[..|es| - 1]);
      InvStep(After(es[..|es| - 1]), es[|es| - 1]);
    }
  }

  /** Once no handler is serving, the table is empty and the poller is switched off. */
  lemma AllQuiet(es: seq<Event>)
    requires Run(es) && forall ws :: ws in After(es).handlers ==> After(es).handlers[ws] != Serving
    ensures After(es).clients == map[] && !After(es).running
  {
    Lifecycle(es);
    forall ws ensures ws !in After(es).clients {
      assert ws in After(es).clients ==> At(After(es), ws, Serving);
    }
  }
}
