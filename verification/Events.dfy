/**
 The WebSocket channel manager of app/api/ws/events.py: the client table and subscriptions,
 broadcasts, and the start/stop switch of the poller, as values and as the classes that
 update them in place.
 */
module Events {
  import opened Options

  type Ws = nat

  const ALL_CHANNELS := {"exchange_status", "market", "orderbook", "trades"}

  // ---------- Clients as values ----------

  datatype Client = Client(channels: set<string>, marketIds: set<int>)

  type Clients = map<Ws, Client>

  datatype Command =
    | Subscribe(channels: seq<string>, marketIds: seq<int>)
    | Unsubscribe(channels: seq<string>)
    | Other

  function Elements<T>(xs: seq<T>): set<T> { set x | x in xs }

  lemma ElementsSnoc<T>(xs: seq<T>, x: T)
    ensures Elements(xs + [x]) == Elements(xs) + {x}
  {
  }

  /** Unknown channel names are dropped; market ids accumulate all the same. */
  function Added(c: Client, channels: seq<string>, marketIds: seq<int>): Client {
    Client(c.channels + Elements(channels) * ALL_CHANNELS, c.marketIds + Elements(marketIds))
  }

  /** A subscription naming no channel at all is answered with an error and changes nothing. */
  function Obeyed(c: Client, cmd: Command): Client {
    match cmd
    case Subscribe(chs, ids) =>
      if chs == [] then c else Added(c, chs, ids)
    case Unsubscribe(chs) => Client(c.channels - Elements(chs), c.marketIds)
    case Other => c
  }

  /** Commands of a client that is no longer in the table are ignored. */
  function Commanded(cs: Clients, ws: Ws, cmd: Command): Clients {
    if ws in cs then cs[ws := Obeyed(cs[ws], cmd)] else cs
  }

  predicate Wants(c: Client, channel: string, marketId: Option<int>) {
    channel in c.channels && (marketId.None? || c.marketIds == {} || marketId.value in c.marketIds)
  }

  function Targets(cs: Clients, channel: string, marketId: Option<int>): set<Ws> {
    set ws | ws in cs && Wants(cs[ws], channel, marketId)
  }

  // ---------- The manager ----------

  class ClientState {
    const ws: Ws
    var channels: set<string>
    var marketIds: set<int>

    function Value(): Client
      reads this
    {
      Client(channels, marketIds)
    }

    constructor (ws: Ws)
      ensures this.ws == ws && Value() == Client({}, {})
    {
      this.ws := ws;
      channels := {};
      marketIds := {};
    }
  }

  class ChannelManager {
    var clients: map<Ws, ClientState>

    ghost predicate Valid()
      reads this, clients.Values
    {
      forall ws :: ws in clients ==> clients[ws].ws == ws
    }

    ghost function Value(): Clients
      reads this, clients.Values
    {
      map ws | ws in clients :: clients[ws].Value()
    }

    constructor ()
      ensures Valid() && Value() == map[]
    {
      clients := map[];
    }

    method Connect(ws: Ws) returns (state: ClientState)
      requires Valid()
      modifies this
      ensures Valid() && Value() == old(Value())[ws := Client({}, {})]
      ensures ws in clients && state == clients[ws] && fresh(state)
    {
      state := new ClientState(ws);
      clients := clients[ws := state];
    }

    method Disconnect(ws: Ws)
      requires Valid()
      modifies this
      ensures Valid() && Value() == old(Value()) - {ws}
    {
      clients := clients - {ws};
      assert Value() == old(Value()) - {ws};
    }

    method AddSubscription(ws: Ws, channels: seq<string>, marketIds: seq<int>)
      requires Valid()
      modifies clients.Values
      ensures Valid()
      ensures Value() == if ws in old(Value()) then old(Value())[ws := Added(old(Value())[ws], channels, marketIds)]
                         else old(Value())
    {
      if ws !in clients {
        return;
      }
      var state := clients[ws];
      var valid := Elements(channels) * ALL_CHANNELS;
      state.channels := state.channels + valid;
      if marketIds != [] {
        state.marketIds := state.marketIds + Elements(marketIds);
      }
      assert forall x :: x in clients && x != ws ==> clients[x] != state;
      assert state.Value() == Added(old(state.Value()), channels, marketIds);
    }

    method RemoveSubscription(ws: Ws, channels: seq<string>)
      requires Valid()
      modifies clients.Values
      ensures Valid() && Value() == Commanded(old(Value()), ws, Unsubscribe(channels))
    {
      if ws in clients {
        var state := clients[ws];
        state.channels := state.channels - Elements(channels);
        assert forall x :: x in clients && x != ws ==> clients[x] != state;
      }
    }

    /** One decoded command of a handler. */
    method HandleCommand(ws: Ws, cmd: Command)
      requires Valid()
      modifies clients.Values
      ensures Valid() && Value() == Commanded(old(Value()), ws, cmd)
    {
      match cmd
      case Subscribe(chs, ids) =>
        if chs == [] {
          assert Value() == Commanded(old(Value()), ws, cmd);
          return;
        }
        var valid := ValidChannels(chs);
        AddSubscription(ws, valid, ids);
        assert Elements(valid) * ALL_CHANNELS == Elements(chs) * ALL_CHANNELS;
      case Unsubscribe(chs) =>
        RemoveSubscription(ws, chs);
      case Other =>
        assert Value() == Commanded(old(Value()), ws, cmd);
    }

    /** The send loop over a snapshot of the table; sockets in `broken` fail and are noted as dead. */
    method SendToTargets(channel: string, marketId: Option<int>, broken: set<Ws>)
        returns (attempted: seq<Ws>, dead: set<Ws>)
      ensures forall ws :: ws in attempted <==> ws in Targets(Value(), channel, marketId)
      ensures forall i, j :: 0 <= i < j < |attempted| ==> attempted[i] != attempted[j]
      ensures forall ws :: ws in dead <==> ws in attempted && ws in broken
    {
      attempted, dead := [], {};
      var rest := clients.Keys;
      while rest != {}
        invariant rest <= clients.Keys
        invariant forall ws ::
          ws in attempted <==> ws in clients && ws !in rest && Wants(clients[ws].Value(), channel, marketId)
        invariant forall i, j :: 0 <= i < j < |attempted| ==> attempted[i] != attempted[j]
        invariant forall ws :: ws in dead <==> ws in attempted && ws in broken
        decreases |rest|
      {
        var ws :| ws in rest;
        rest := rest - {ws};
        var state := clients[ws];
        if channel !in state.channels {
          continue;
        }
        if marketId.Some? && state.marketIds != {} && marketId.value !in state.marketIds {
          continue;
        }
        attempted := attempted + [ws];
        if ws in broken {
          dead := dead + {ws};
        }
      }
    }

    /**
     * Sends to a snapshot of the table, with no command in between.  Each target is tried
     * exactly once, nobody else is, and the targets that failed leave the table.
     */
    method Broadcast(channel: string, marketId: Option<int>, broken: set<Ws>) returns (attempted: seq<Ws>)
      requires Valid()
      modifies this
      ensures Valid()
      ensures forall ws :: ws in attempted <==> ws in Targets(old(Value()), channel, marketId)
      ensures forall i, j :: 0 <= i < j < |attempted| ==> attempted[i] != attempted[j]
      ensures Value() == old(Value()) - (Targets(old(Value()), channel, marketId) * broken)
    {
      var dead;
      attempted, dead := SendToTargets(channel, marketId, broken);
      assert dead == Targets(Value(), channel, marketId) * broken;
      clients := clients - dead;
      assert Value() == old(Value()) - dead;
    }
  }

  method ValidChannels(channels: seq<string>) returns (valid: seq<string>)
    ensures Elements(valid) == Elements(channels) * ALL_CHANNELS
  {
    valid := [];
    for i := 0 to |channels|
      invariant Elements(valid) == Elements(channels[..i]) * ALL_CHANNELS
    {
      assert channels[..i + 1] == channels[..i] + [channels[i]];
      ElementsSnoc(channels[..i], channels[i]);
      ElementsSnoc(valid, channels[i]);
      if channels[i] in ALL_CHANNELS {
        valid := valid + [channels[i]];
      }
    }
    assert channels[..|channels|] == channels;
  }

  // ---------- The poller's switch ----------

  class MarketPoller {
    var running: bool
    var task: Option<nat>

    constructor ()
      ensures !running && task == None
    {
      running := false;
      task := None;
    }

    /** `created` is the task the event loop makes for the polling loop. */
    method Start(created: nat)
      modifies this
      ensures running && task == Some(created)
    {
      running := true;
      task := Some(created);
    }

    /** Clears the switch and names the task to cancel; the handler then waits for that task. */
    method Stop() returns (cancelled: Option<nat>)
      modifies this
      ensures !running && task == old(task) && cancelled == task
    {
      running := false;
      cancelled := task;
    }
  }
}
