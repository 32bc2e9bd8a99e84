/**
 What the events of a run alone say: who is in the table, what each client wants, and to whom a
 broadcast went while everything else went on.
 */
module EventHistory {
  import opened Options
  import opened Events
  import opened EventRuns

  // ---------- Subscriptions read off the history ----------

  /** Since broadcast `b` last began, a send of it to `ws` has failed. */
  predicate Failed(es: seq<Event>, b: nat, ws: Ws) {
    es != []
    && var front, e := es[..|es| - 1], es[|es| - 1];
       (e == Send(b, ws, false) || (!(e.Begin? && e.b == b) && Failed(front, b, ws)))
  }

  /** The clients a step of the machine takes out of the table as dead ... */
  function Dropped(s: Server, e: Event): set<Ws> {
    if e.Conclude? && e.b in s.sends then s.sends[e.b].dead else {}
  }

  /** ... and what the events alone say about that. */
  predicate Drops(front: seq<Event>, e: Event, ws: Ws) { e.Conclude? && Failed(front, e.b, ws) }

  /** The last event about `ws`'s place in the table put it there. */
  predicate Registered(es: seq<Event>, ws: Ws) {
    es != []
    && var front, e := es[..|es| - 1], es[|es| - 1];
       (e == Register(ws) || (e != Finish(ws) && !Drops(front, e, ws) && Registered(front, ws)))
  }

  /** A broadcast notes as dead exactly the clients to which a send of its own has failed. */
  lemma {:induction false} DeadExactly(es: seq<Event>, b: nat, ws: Ws)
    requires Run(es) && b in After(es).sends
    ensures ws in After(es).sends[b].dead <==> Failed(es, b, ws)
  {
    var front, e := es[..|es| - 1], es[|es| - 1];
    if e.Begin? && e.b == b {
      NothingSentYet(After(front), e);
    } else {
      SendChange(After(front), e, b);
      DeadExactly(front, b, ws);
    }
  }

  lemma NothingSentYet(s: Server, e: Event)
    requires Enabled(s, e) && e.Begin?
    ensures e.b in Next(s, e).sends && Next(s, e).sends[e.b].dead == {}
  {
  }

  /** How a client leaves the table: by its own departure or after a failed send to it, and in no other way. */
  lemma LeavesExactly(es: seq<Event>, e: Event, ws: Ws)
    requires Run(es + [e]) && ws in After(es).clients
    ensures ws !in After(es + [e]).clients <==> e == Finish(ws) || (e.Conclude? && Failed(es, e.b, ws))
  {
    hide Next, Enabled, Failed;
    assert (es + [e])[..|es|] == es;
    TableStep(After(es), e, ws);
    DroppedExactly(es, e, ws);
  }

  lemma DroppedExactly(es: seq<Event>, e: Event, ws: Ws)
    requires Run(es) && Enabled(After(es), e)
    ensures ws in Dropped(After(es), e) <==> Drops(es, e, ws)
  {
    hide Failed;
    if e.Conclude? { DeadExactly(es, e.b, ws); }
  }

  /** `ws` was in the table when it issued the command `e`; others are ignored. */
  predicate Heard(front: seq<Event>, e: Event, ws: Ws) { e.Obey? && e.ws == ws && Registered(front, ws) }

  /** The last command heard from `ws` that names `channel` was a subscription. */
  predicate Subscribed(es: seq<Event>, ws: Ws, channel: string) {
    es != []
    && var front, e := es[..|es| - 1], es[|es| - 1];
       if e == Register(ws) then false
       else if Heard(front, e, ws) && e.cmd.Subscribe? && channel in e.cmd.channels then true
       else if Heard(front, e, ws) && e.cmd.Unsubscribe? && channel in e.cmd.channels then false
       else Subscribed(front, ws, channel)
  }

  /** All market ids heard from `ws` in subscriptions that name at least one channel. */
  function MarketFilter(es: seq<Event>, ws: Ws): set<int> {
    if es == [] then {}
    else
      var front, e := es[..|es| - 1], es[|es| - 1];
      if e == Register(ws) then {}
      else if Heard(front, e, ws) && e.cmd.Subscribe? && e.cmd.channels != [] then
        MarketFilter(front, ws) + Elements(e.cmd.marketIds)
      else MarketFilter(front, ws)
  }

  /** The channels there are. */
  predicate Known(channel: string) {
    channel == "exchange_status" || channel == "market" || channel == "orderbook" || channel == "trades"
  }

  lemma KnownExactly(channel: string)
    ensures channel in ALL_CHANNELS <==> Known(channel)
  {
  }

  /** What the history says about one client. */
  ghost predicate ClientMatches(es: seq<Event>, ws: Ws, c: Client) {
    c.marketIds == MarketFilter(es, ws)
    && forall ch :: ch in c.channels <==> ch in ALL_CHANNELS && Subscribed(es, ws, ch)
  }

  lemma ClientStep(es: seq<Event>, ws: Ws, c: Client, e: Event)
    requires ClientMatches(es, ws, c) && e != Register(ws)
    ensures ClientMatches(es + [e], ws, if Heard(es, e, ws) then Obeyed(c, e.cmd) else c)
  {
    assert (es + [e])[..|es|] == es;
  }

  lemma NewClient(es: seq<Event>, ws: Ws)
    ensures ClientMatches(es + [Register(ws)], ws, Client({}, {}))
  {
    assert (es + [Register(ws)])[..|es|] == es;
  }

  lemma TableStep(s: Server, e: Event, ws: Ws)
    requires Enabled(s, e)
    ensures ws in Next(s, e).clients
       <==> e == Register(ws) || (e != Finish(ws) && ws !in Dropped(s, e) && ws in s.clients)
  {
    hide Sent, Skipped, ClientCount, Obeyed;
  }

  lemma StateStep(s: Server, e: Event, ws: Ws)
    requires Enabled(s, e)
    ensures StateOf(Next(s, e), ws)
         == if e == Register(ws) then Client({}, {})
            else if e.Obey? && e.ws == ws && ws in s.clients then Obeyed(StateOf(s, ws), e.cmd)
            else StateOf(s, ws)
  {
    hide Sent, Skipped, ClientCount, Obeyed;
    if e.Conclude? {
      RemovedKeeps(s.(sends := s.sends - {e.b}), s.sends[e.b].dead, ws);
    } else if e.Finish? {
      RemovedKeeps(s, {e.ws}, ws);
    }
  }

  lemma RemovedKeeps(s: Server, gone: set<Ws>, ws: Ws)
    ensures StateOf(Removed(s, gone), ws) == StateOf(s, ws)
  {
  }

  /** Membership in the table, and the state object of every client, in the table or out of it, follow the history. */
  lemma {:induction false} TableMatchesHistory(es: seq<Event>, ws: Ws)
    requires Run(es)
    ensures ws in After(es).clients <==> Registered(es, ws)
    ensures ClientMatches(es, ws, StateOf(After(es), ws))
  {
    hide Next, Enabled, ClientMatches, StateOf;
    if es == [] {
      Unknown(ws);
    } else {
      var front, e := es[..|es| - 1], es[|es| - 1];
      TableMatchesHistory(front, ws);
      TableStep(After(front), e, ws);
      StateStep(After(front), e, ws);
      DroppedExactly(front, e, ws);
      assert front + [e] == es;
      if e == Register(ws) {
        NewClient(front, ws);
      } else {
        ClientStep(front, ws, StateOf(After(front), ws), e);
      }
    }
  }

  lemma Unknown(ws: Ws)
    ensures ClientMatches([], ws, StateOf(After([]), ws))
  {
  }

  /** What the history says a client wants to receive. */
  predicate Interested(es: seq<Event>, channel: string, marketId: Option<int>, ws: Ws) {
    && Known(channel) && Subscribed(es, ws, channel)
    && (marketId.None? || MarketFilter(es, ws) == {} || marketId.value in MarketFilter(es, ws))
  }

  /** The clients an event history entitles to a broadcast that begins now. */
  predicate Entitled(es: seq<Event>, channel: string, marketId: Option<int>, ws: Ws) {
    Registered(es, ws) && Interested(es, channel, marketId, ws)
  }

  lemma WantsExactly(es: seq<Event>, channel: string, marketId: Option<int>, ws: Ws)
    requires Run(es)
    ensures Wants(StateOf(After(es), ws), channel, marketId) <==> Interested(es, channel, marketId, ws)
  {
    hide StateOf;
    KnownExactly(channel);
    TableMatchesHistory(es, ws);
  }

  /**
   * The targets of a broadcast are exactly the registered clients whose last command heard that
   * names the channel was a subscription and whose market filter is empty or has the market.
   */
  lemma DeliveryMatchesHistory(es: seq<Event>, channel: string, marketId: Option<int>, ws: Ws)
    requires Run(es)
    ensures ws in Targets(After(es).clients, channel, marketId) <==> Entitled(es, channel, marketId, ws)
  {
    TableMatchesHistory(es, ws);
    WantsExactly(es, channel, marketId, ws);
  }

  // ---------- Broadcasts interleaved with everything else ----------

  /** The turn of `ws` in the loop of broadcast `b`. */
  predicate Looks(e: Event, b: nat, ws: Ws) { e == Skip(b, ws) || (e.Send? && e.b == b && e.ws == ws) }

  /** The entries of broadcast `b` before and after a step. */
  predicate Notes(e: Event, b: nat, x: Sending, x': Sending) {
    && x'.channel == x.channel && x'.marketId == x.marketId
    && ((e.Skip? || e.Send?) && e.b == b ==> e.ws in x.waiting)
    && x'.waiting == (if (e.Skip? || e.Send?) && e.b == b then x.waiting - {e.ws} else x.waiting)
    && x'.attempted == (if e.Send? && e.b == b then x.attempted + [e.ws] else x.attempted)
    && x'.dead == if e.Send? && e.b == b && !e.ok then x.dead + {e.ws} else x.dead
  }

  lemma SendChange(s: Server, e: Event, b: nat)
    requires Enabled(s, e) && b in Next(s, e).sends && !(e.Begin? && e.b == b)
    ensures b in s.sends && Notes(e, b, s.sends[b], Next(s, e).sends[b])
  {
    hide Commanded, StateOf, Wanted, ClientCount;
  }

  /** `k` is where the broadcast under way began; since then it has had a turn for just those it does not wait for. */
  ghost predicate Looked(es: seq<Event>, b: nat, x: Sending, k: nat) {
    && k < |es| && es[k] == Begin(b, x.channel, x.marketId)
    && (forall ws :: ws in After(es[..k]).clients
          <==> ws in x.waiting || exists i :: k < i < |es| && Looks(es[i], b, ws))
    && (forall i :: k < i < |es| && (es[i].Skip? || es[i].Send?) && es[i].b == b ==> es[i].ws !in x.waiting)
  }

  /** No client has had two turns. */
  ghost predicate LookedOnce(es: seq<Event>, b: nat, k: nat) {
    forall i, j, ws :: k < i < j < |es| && Looks(es[i], b, ws) ==> !Looks(es[j], b, ws)
  }

  /** What has been noted is what the sends were. */
  ghost predicate Noted(es: seq<Event>, b: nat, x: Sending, k: nat) {
    && (forall ws :: ws in x.attempted <==> exists i :: k < i < |es| && es[i].Send? && es[i].b == b && es[i].ws == ws)
    && (forall ws :: ws in x.dead <==> exists i :: k < i < |es| && es[i] == Send(b, ws, false))
    && (forall i, j :: 0 <= i < j < |x.attempted| ==> x.attempted[i] != x.attempted[j])
  }

  /** Each turn sent exactly if the client's history up to that turn asks for it. */
  ghost predicate Judged(es: seq<Event>, b: nat, x: Sending, k: nat) {
    forall i :: k < i < |es| ==>
      && (es[i].Send? && es[i].b == b ==> Interested(es[..i], x.channel, x.marketId, es[i].ws))
      && (es[i].Skip? && es[i].b == b ==> !Interested(es[..i], x.channel, x.marketId, es[i].ws))
  }

  lemma Longer(es: seq<Event>, e: Event)
    ensures (es + [e])[|es|] == e && forall i :: 0 <= i < |es| ==> (es + [e])[i] == es[i]
    ensures (es + [e])[..|es|] == es && forall i :: 0 <= i <= |es| ==> (es + [e])[..i] == es[..i]
  {
  }

  lemma LookedLater(es: seq<Event>, e: Event, b: nat, x: Sending, x': Sending, k: nat)
    requires Looked(es, b, x, k) && Notes(e, b, x, x')
    ensures Looked(es + [e], b, x', k)
    ensures LookedOnce(es, b, k) ==> LookedOnce(es + [e], b, k)
  {
    Longer(es, e);
    hide After;
    if LookedOnce(es, b, k) {
      forall i, j, ws | k < i < j < |es + [e]| && Looks((es + [e])[i], b, ws) ensures !Looks((es + [e])[j], b, ws) {
        if j == |es| { assert es[i].ws !in x.waiting; }
      }
    }
  }

  lemma NotedLater(es: seq<Event>, e: Event, b: nat, x: Sending, x': Sending, k: nat)
    requires Looked(es, b, x, k) && Noted(es, b, x, k) && Notes(e, b, x, x')
    ensures Noted(es + [e], b, x', k)
  {
    hide After;
    Longer(es, e);
    var all := es + [e];
    forall ws ensures ws in x'.attempted
                 <==> exists i :: k < i < |all| && all[i].Send? && all[i].b == b && all[i].ws == ws
    {
      if i :| k < i < |all| && all[i].Send? && all[i].b == b && all[i].ws == ws { assert i < |es| ==> es[i] == all[i]; }
      if ws in x.attempted {
        var i :| k < i < |es| && es[i].Send? && es[i].b == b && es[i].ws == ws;
        assert all[i] == es[i];
      }
    }
    forall ws ensures ws in x'.dead <==> exists i :: k < i < |all| && all[i] == Send(b, ws, false) {
      if i :| k < i < |all| && all[i] == Send(b, ws, false) { assert i < |es| ==> es[i] == all[i]; }
      if ws in x.dead {
        var i :| k < i < |es| && es[i] == Send(b, ws, false);
        assert all[i] == es[i];
      }
    }
    if e.Send? && e.b == b {
      assert e.ws !in x.attempted;
    }
  }

  lemma JudgedLater(es: seq<Event>, e: Event, b: nat, x: Sending, x': Sending, k: nat)
    requires Judged(es, b, x, k) && Notes(e, b, x, x')
    requires Run(es) && Enabled(After(es), e) && b in After(es).sends && After(es).sends[b] == x
    ensures Judged(es + [e], b, x', k)
  {
    Longer(es, e);
    if (e.Skip? || e.Send?) && e.b == b {
      WantsExactly(es, x.channel, x.marketId, e.ws);
      hide Interested, StateOf, After;
    } else {
      hide Interested, StateOf, After, Enabled;
    }
  }

  lemma BeganNow(es: seq<Event>, b: nat, x: Sending, k: nat)
    requires |es| == k + 1 && es[k] == Begin(b, x.channel, x.marketId)
    requires x.waiting == After(es[..k]).clients.Keys && x.attempted == [] && x.dead == {}
    ensures Looked(es, b, x, k) && LookedOnce(es, b, k) && Noted(es, b, x, k) && Judged(es, b, x, k)
  {
    hide After, Interested;
  }

  lemma {:induction false} Accounted(es: seq<Event>, b: nat) returns (k: nat)
    requires Run(es) && b in After(es).sends
    ensures var x := After(es).sends[b];
            Looked(es, b, x, k) && LookedOnce(es, b, k) && Noted(es, b, x, k) && Judged(es, b, x, k)
  {
    var front, e := es[..|es| - 1], es[|es| - 1];
    assert front + [e] == es;
    if e.Begin? && e.b == b {
      k := |front|;
      hide Looked, LookedOnce, Noted, Judged;
      BeganNow(es, b, After(es).sends[b], k);
    } else {
      hide Next, Enabled, Looked, LookedOnce, Noted, Judged, Notes;
      SendChange(After(front), e, b);
      k := Accounted(front, b);
      var x, x' := After(front).sends[b], After(es).sends[b];
      LookedLater(front, e, b, x, x', k);
      NotedLater(front, e, b, x, x', k);
      JudgedLater(front, e, b, x, x', k);
    }
  }

  lemma PhaseKept(s: Server, e: Event, ws: Ws)
    requires Enabled(s, e) && ws in s.handlers && s.handlers[ws] != Accepting
    ensures ws in Next(s, e).handlers && Next(s, e).handlers[ws] != Accepting
    ensures e != Register(ws)
  {
    hide Sent, Skipped, Commanded, StateOf, ClientCount;
  }

  /** Nothing but its own commands changes what a registered client wants. */
  lemma {:induction false} InterestKept(es: seq<Event>, k: nat, i: nat, channel: string, marketId: Option<int>, ws: Ws)
    requires Run(es) && k <= i <= |es| && Registered(es[..k], ws)
    requires forall j :: k <= j < i ==> !(es[j].Obey? && es[j].ws == ws)
    ensures Interested(es[..i], channel, marketId, ws) <==> Interested(es[..k], channel, marketId, ws)
    ensures ws in After(es[..i]).handlers && After(es[..i]).handlers[ws] != Accepting
    decreases i
  {
    hide Next, Enabled;
    RunPrefix(es, i);
    if i == k {
      TableMatchesHistory(es[..k], ws);
      Lifecycle(es[..k]);
    } else {
      InterestKept(es, k, i - 1, channel, marketId, ws);
      assert es[..i][..i - 1] == es[..i - 1];
      PhaseKept(After(es[..i - 1]), es[i - 1], ws);
    }
  }

  /**
   * Delivery under every interleaving.  A broadcast that has finished its loop had exactly one
   * turn for each client registered when it began, and none for others.  At that turn it sent
   * exactly if the client's own history up to that moment asks for it, whatever the others did
   * in between, and it noted as dead just those to which its own send failed.  In particular a
   * client that issued no command meanwhile was tried exactly if it was entitled at the start.
   */
  lemma BroadcastDelivers(es: seq<Event>, b: nat) returns (k: nat)
    requires Run(es) && b in After(es).sends && After(es).sends[b].waiting == {}
    ensures var x := After(es).sends[b];
            && k < |es| && es[k] == Begin(b, x.channel, x.marketId)
            && (forall ws :: Registered(es[..k], ws) <==> exists i :: k < i < |es| && Looks(es[i], b, ws))
            && LookedOnce(es, b, k) && Judged(es, b, x, k) && Noted(es, b, x, k)
            && forall ws :: (forall i :: k < i < |es| ==> !(es[i].Obey? && es[i].ws == ws)) ==>
                 (ws in x.attempted <==> Entitled(es[..k], x.channel, x.marketId, ws))
  {
    hide Run, After, Interested, LookedOnce, Registered;
    var x := After(es).sends[b];
    k := Accounted(es, b);
    RunPrefix(es, k);
    forall ws
      ensures Registered(es[..k], ws) <==> exists i :: k < i < |es| && Looks(es[i], b, ws)
    {
      TableMatchesHistory(es[..k], ws);
    }
    forall ws | forall i :: k < i < |es| ==> !(es[i].Obey? && es[i].ws == ws)
      ensures ws in x.attempted <==> Entitled(es[..k], x.channel, x.marketId, ws)
    {
      StableClient(es, b, x, k, ws);
    }
  }

  lemma StableClient(es: seq<Event>, b: nat, x: Sending, k: nat, ws: Ws)
    requires Run(es) && k < |es| && es[k].Begin? && LookedOnce(es, b, k) && Judged(es, b, x, k) && Noted(es, b, x, k)
    requires Registered(es[..k], ws) <==> exists i :: k < i < |es| && Looks(es[i], b, ws)
    requires forall i :: k < i < |es| ==> !(es[i].Obey? && es[i].ws == ws)
    ensures ws in x.attempted <==> Entitled(es[..k], x.channel, x.marketId, ws)
  {
    hide Run, Interested, Registered;
    if Registered(es[..k], ws) {
      var i :| k < i < |es| && Looks(es[i], b, ws);
      InterestKept(es, k, i, x.channel, x.marketId, ws);
      if ws in x.attempted {
        var j :| k < j < |es| && es[j].Send? && es[j].b == b && es[j].ws == ws;
        assert Looks(es[j], b, ws);
      }
    }
  }

  lemma {:induction false} RunPrefix(es: seq<Event>, k: nat)
    requires Run(es) && k <= |es|
    ensures Run(es[..k])
    decreases |es|
  {
    if k == |es| {
      assert es[..k] == es;
    } else {
      RunPrefix(es[..|es| - 1], k);
      assert es[..|es| - 1][..k] == es[..k];
    }
  }
}
