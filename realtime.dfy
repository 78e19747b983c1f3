/**
  The WebSocket side of the server: the `connections` map from user id to
  socket, the connection handler that admits or closes a socket, the close
  listener each admitted socket gets, the targeted `broadcast`, and the
  fan-out to every open client that `/resolve` performs.

  Sockets are identified by a number.  The transport's own bookkeeping that
  the handlers read (`wss.clients`, `readyState`) is kept beside the map, and
  every `ws.send` is appended to a log of deliveries.
*/
module Realtime {
  import opened Wrappers
  import opened TelegramAuth

  type UserId = string

  /** The identity of one WebSocket connection object. */
  type SocketId = nat

  /** `WebSocket.readyState`. */
  datatype ReadyState = Connecting | Open | Closing | Closed

  /** What the server pushes to a client (the JSON text of it is not modelled). */
  datatype Notice = Resolution(marketId: string, outcome: bool) | Message(body: string)

  /** One `ws.send` call. */
  datatype Delivery = Delivery(socket: SocketId, notice: Notice)

  /** The `connections` map, and for every socket with a close listener the user id
      that listener captured. */
  datatype Registry = Registry(connections: map<UserId, SocketId>, closeListeners: map<SocketId, UserId>)

  predicate IsOpen(state: map<SocketId, ReadyState>, ws: SocketId)
  {
    ws in state && state[ws] == Open
  }

  ghost predicate Distinct(clients: seq<SocketId>)
  {
    forall i, j :: 0 <= i < j < |clients| ==> clients[i] != clients[j]
  }

  /** What the connection handler does to the registry, given the verdict of the
      auth check and the user id read from the auth string ("" when absent). */
  function Register(r: Registry, ws: SocketId, verified: bool, userId: UserId): (r': Registry)
    ensures !verified || userId == "" ==> r' == r
    ensures verified && userId != "" ==>
              && r'.connections.Keys == r.connections.Keys + {userId}
              && r'.connections[userId] == ws
              && (forall u :: u in r.connections && u != userId ==> r'.connections[u] == r.connections[u])
              && r'.closeListeners == r.closeListeners[ws := userId]
  {
    if verified && userId != "" then Registry(r.connections[userId := ws], r.closeListeners[ws := userId])
    else r
  }

  /** What a socket's close listener does: delete the user id it captured,
      whichever socket that entry names by now. */
  function Close(r: Registry, ws: SocketId): (r': Registry)
    ensures ws !in r.closeListeners ==> r' == r
    ensures ws in r.closeListeners ==> r'.connections.Keys == r.connections.Keys - {r.closeListeners[ws]}
    ensures forall u :: u in r'.connections ==> u in r.connections && r'.connections[u] == r.connections[u]
    ensures r'.closeListeners == r.closeListeners
  {
    if ws in r.closeListeners then Registry(r.connections - {r.closeListeners[ws]}, r.closeListeners)
    else r
  }

  /** Replace on admit: after a second admission for the same user only the newer
      socket is mapped, and a targeted send reaches that socket alone. */
  lemma NewerSocketReplacesOlder(r: Registry, older: SocketId, newer: SocketId, u: UserId,
                                 state: map<SocketId, ReadyState>, n: Notice)
    requires u != "" && IsOpen(state, newer)
    ensures Register(Register(r, older, true, u), newer, true, u).connections[u] == newer
    ensures Targeted(Register(Register(r, older, true, u), newer, true, u).connections, state, u, n)
         == [Delivery(newer, n)]
  {
  }

  /** Delete on close, unconditionally: when a socket that a newer one has replaced
      closes, its listener still deletes the user's entry, so the user, still
      connected through the newer socket, is no longer mapped to any socket. */
  lemma ClosingReplacedSocketUnmapsUser(r: Registry, older: SocketId, newer: SocketId, u: UserId,
                                        state: map<SocketId, ReadyState>, n: Notice)
    requires u != "" && older != newer
    ensures var both := Register(Register(r, older, true, u), newer, true, u);
            && both.connections[u] == newer
            && u !in Close(both, older).connections
            && Targeted(Close(both, older).connections, state, u, n) == []
  {
  }

  /** `broadcast(userId, message)`: one send to the socket mapped for the user,
      when there is one and it is OPEN, and none otherwise. */
  function Targeted(connections: map<UserId, SocketId>, state: map<SocketId, ReadyState>,
                    userId: UserId, n: Notice): (ds: seq<Delivery>)
    ensures |ds| <= 1
    ensures |ds| == 1 <==> userId in connections && IsOpen(state, connections[userId])
    ensures forall d :: d in ds ==> d == Delivery(connections[userId], n)
  {
    if userId in connections && IsOpen(state, connections[userId]) then [Delivery(connections[userId], n)]
    else []
  }

  /** The sends of `wss.clients.forEach(c => { if (c.readyState === OPEN) c.send(...) })`. */
  function FanOut(clients: seq<SocketId>, state: map<SocketId, ReadyState>, n: Notice): (ds: seq<Delivery>)
    ensures |ds| <= |clients|
    ensures forall d :: d in ds ==> d.notice == n && d.socket in clients && IsOpen(state, d.socket)
  {
    if clients == [] then []
    else
      var last := clients[|clients| - 1];
      FanOut(clients[..|clients| - 1], state, n) + (if IsOpen(state, last) then [Delivery(last, n)] else [])
  }

  lemma FanOutSnoc(clients: seq<SocketId>, i: nat, state: map<SocketId, ReadyState>, n: Notice)
    requires i < |clients|
    ensures FanOut(clients[..i + 1], state, n)
         == FanOut(clients[..i], state, n) + (if IsOpen(state, clients[i]) then [Delivery(clients[i], n)] else [])
  {
    var prefix := clients[..i + 1];
    assert prefix[..|prefix| - 1] == clients[..i] && prefix[|prefix| - 1] == clients[i];
  }

  /** How many of the deliveries went to ws. */
  function DeliveriesTo(ds: seq<Delivery>, ws: SocketId): nat
  {
    if ds == [] then 0
    else DeliveriesTo(ds[..|ds| - 1], ws) + (if ds[|ds| - 1].socket == ws then 1 else 0)
  }

  lemma {:induction false} DeliveriesToAppend(ds: seq<Delivery>, es: seq<Delivery>, ws: SocketId)
    ensures DeliveriesTo(ds + es, ws) == DeliveriesTo(ds, ws) + DeliveriesTo(es, ws)
    decreases |es|
  {
    if es != [] {
      assert (ds + es)[..|ds + es| - 1] == ds + es[..|es| - 1];
      assert (ds + es)[|ds + es| - 1] == es[|es| - 1];
      DeliveriesToAppend(ds, es[..|es| - 1], ws);
    } else {
      assert ds + es == ds;
    }
  }

  /** The fan-out reaches every OPEN client exactly once and no other socket. */
  lemma {:induction false} FanOutOncePerOpenClient(clients: seq<SocketId>, state: map<SocketId, ReadyState>,
                                                   n: Notice, ws: SocketId)
    requires Distinct(clients)
    ensures DeliveriesTo(FanOut(clients, state, n), ws) == if ws in clients && IsOpen(state, ws) then 1 else 0
  {
    if clients != [] {
      var init, last := clients[..|clients| - 1], clients[|clients| - 1];
      FanOutOncePerOpenClient(init, state, n, ws);
      var tail := if IsOpen(state, last) then [Delivery(last, n)] else [];
      DeliveriesToAppend(FanOut(init, state, n), tail, ws);
      assert DeliveriesTo(tail, ws) == if IsOpen(state, last) && last == ws then 1 else 0 by {
        if tail != [] { assert tail[..0] == []; }
      }
      assert clients == init + [last];
      assert last !in init;
    }
  }

  /** Three connected clients, one of them no longer OPEN: the fan-out sends twice,
      to the two open ones. */
  lemma FanOutSkipsClientNotOpen(a: SocketId, b: SocketId, c: SocketId,
                                 state: map<SocketId, ReadyState>, n: Notice)
    requires IsOpen(state, a) && IsOpen(state, b) && !IsOpen(state, c)
    ensures FanOut([a, b, c], state, n) == [Delivery(a, n), Delivery(b, n)]
  {
    assert [a][..0] == [];
    assert FanOut([a], state, n) == [Delivery(a, n)];
    assert [a, b][..1] == [a];
    assert FanOut([a, b], state, n) == [Delivery(a, n), Delivery(b, n)];
    assert [a, b, c][..2] == [a, b];
  }

  /** The clients without ws. */
  function Without(clients: seq<SocketId>, ws: SocketId): (r: seq<SocketId>)
    ensures forall x :: x in r <==> x in clients && x != ws
    ensures Distinct(clients) ==> Distinct(r)
  {
    if clients == [] then []
    else
      var rest := Without(clients[1..], ws);
      assert Distinct(clients) ==> clients[0] !in clients[1..];
      if clients[0] == ws then rest else [clients[0]] + rest
  }

  /** The server's live-connection state, updated in place by the event handlers. */
  class Hub {
    var connections: map<UserId, SocketId>
    var closeListeners: map<SocketId, UserId>
    var clients: seq<SocketId>               // wss.clients, in the order the sockets arrived
    var state: map<SocketId, ReadyState>     // readyState of every socket the server has seen
    var sent: seq<Delivery>                  // every ws.send so far

    function Current(): Registry
      reads this
    {
      Registry(connections, closeListeners)
    }

    ghost predicate Valid()
      reads this
    {
      && Distinct(clients)
      && (forall ws :: ws in clients ==> ws in state && state[ws] != Closed)
      && (forall u :: u in connections ==> connections[u] in state)
      && (forall ws :: ws in closeListeners ==> ws in state)
    }

    constructor ()
      ensures Valid()
      ensures connections == map[] && closeListeners == map[] && clients == [] && state == map[] && sent == []
    {
      connections, closeListeners := map[], map[];
      clients, state, sent := [], map[], [];
    }

    /** The transport completes a handshake: the socket joins the clients, OPEN. */
    method Accept(ws: SocketId)
      requires Valid() && ws !in state
      modifies this
      ensures Valid()
      ensures clients == old(clients) + [ws] && state == old(state)[ws := Open]
      ensures Current() == old(Current()) && sent == old(sent)
    {
      clients := clients + [ws];
      state := state[ws := Open];
    }

    /** `wss.on('connection')` for socket ws whose URL carried `auth` ("" when absent).
        A socket that fails the check is closed and the map is left alone; one that
        passes and names a user becomes that user's socket and gets a close listener. */
    method OnConnection(ws: SocketId, auth: string, botToken: Option<string>, pf: Platform)
      requires Valid() && ws in clients && state[ws] == Open && ws !in closeListeners
      modifies this
      ensures Valid()
      ensures var verified := auth != "" && VerifyTelegramAuth(botToken, auth, pf);
              && Current() == Register(old(Current()), ws, verified, pf.userIdOf(pf.parseQuery(auth)))
              && state == if verified then old(state) else old(state)[ws := Closing]
      ensures !(auth != "" && VerifyTelegramAuth(botToken, auth, pf)) ==> connections == old(connections)
      ensures clients == old(clients) && sent == old(sent)
    {
      if auth == "" || !VerifyTelegramAuth(botToken, auth, pf) {
        state := state[ws := Closing];
        return;
      }
      var userId := pf.userIdOf(pf.parseQuery(auth));
      if userId != "" {
        connections := connections[userId := ws];
        closeListeners := closeListeners[ws := userId];
      }
    }

    /** The transport reports ws closed: it leaves the clients, and its close
        listener, if it has one, deletes the user id it captured. */
    method OnClose(ws: SocketId)
      requires Valid() && ws in clients
      modifies this
      ensures Valid()
      ensures clients == Without(old(clients), ws) && state == old(state)[ws := Closed]
      ensures Current() == Close(old(Current()), ws) && sent == old(sent)
    {
      clients := Without(clients, ws);
      state := state[ws := Closed];
      if ws in closeListeners {
        connections := connections - {closeListeners[ws]};
      }
    }

    /** `broadcast(userId, message)`. */
    method Broadcast(userId: UserId, n: Notice)
      requires Valid()
      modifies this`sent
      ensures sent == old(sent) + Targeted(connections, state, userId, n)
    {
      if userId in connections {
        var ws := connections[userId];
        if state[ws] == Open {
          sent := sent + [Delivery(ws, n)];
        }
      }
    }

    /** The loop over `wss.clients` in `/resolve`. */
    method NotifyAllOpen(n: Notice)
      modifies this`sent
      ensures sent == old(sent) + FanOut(clients, state, n)
    {
      var cs, st := clients, state;
      var i := 0;
      while i < |cs|
        invariant 0 <= i <= |cs|
        invariant sent == old(sent) + FanOut(cs[..i], st, n)
      {
        var ws := cs[i];
        ghost var before := FanOut(cs[..i], st, n);
        ghost var delivered := if IsOpen(st, ws) then [Delivery(ws, n)] else [];
        if IsOpen(st, ws) {
          sent := sent + [Delivery(ws, n)];
        }
        assert (old(sent) + before) + delivered == old(sent) + (before + delivered);
        FanOutSnoc(cs, i, st, n);
        i := i + 1;
      }
      assert cs[..|cs|] == cs;
    }
  }
}
