/**
 The relay itself: the shared server state (registry, transcript, store and
 network) and the per-connection protocol handler, one `Endpoint` per
 accepted WebSocket. Each handler event is one atomic step on the shared state.
 */
module Server {
  import opened ChatTypes
  import opened Registry
  import opened History

  /**
   The outboxes after a join of `identity` on `ws`, with `reg` the registry
   that already holds the joiner: first the private confirmation to `ws`, then
   the "joined" notice to every registry entry, then the replay of `h` to `ws`.
   */
  function AfterJoin(outbox: Outbox, reg: Reg, ws: ConnId, identity: string, ts: string, h: seq<Message>): (r: Outbox)
    requires ws in outbox
    ensures r.Keys == outbox.Keys
    ensures r[ws] == outbox[ws] + [Text(ConnectedText(identity))]
                     + Repeat(JoinNotice(identity, ts), Multiplicity(reg, ws)) + Replay(h)
    ensures forall c :: c in outbox && c != ws ==>
      r[c] == outbox[c] + Repeat(JoinNotice(identity, ts), Multiplicity(reg, c))
  {
    var confirmed := outbox[ws := outbox[ws] + [Text(ConnectedText(identity))]];
    var notified := Delivered(confirmed, reg, JoinNotice(identity, ts));
    notified[ws := notified[ws] + Replay(h)]
  }

  /**
   When the joiner's handle is registered under the new identity only, the
   joiner's outbox ends in exactly: the confirmation, the "joined" notice, and
   the transcript message by message; every other registered connection gets
   the notice once, and unregistered ones get nothing.
   */
  lemma JoinOrder(outbox: Outbox, reg: Reg, ws: ConnId, identity: string, ts: string, h: seq<Message>)
    requires ws in outbox && Injective(reg) && identity in reg && reg[identity] == ws
    ensures AfterJoin(outbox, reg, ws, identity, ts, h)[ws]
            == outbox[ws] + [Text(ConnectedText(identity)), JoinNotice(identity, ts)] + Replay(h)
    ensures forall c :: c in outbox && c != ws ==>
      AfterJoin(outbox, reg, ws, identity, ts, h)[c] == outbox[c] + (if c in reg.Values then [JoinNotice(identity, ts)] else [])
  {
    MultiplicityInjective(reg, ws);
    assert Repeat(JoinNotice(identity, ts), 1) == [JoinNotice(identity, ts)];
    forall c | c in outbox && c != ws
      ensures AfterJoin(outbox, reg, ws, identity, ts, h)[c] == outbox[c] + (if c in reg.Values then [JoinNotice(identity, ts)] else [])
    {
      MultiplicityInjective(reg, c);
    }
  }

  /** Registering a handle that had no entry keeps the registry injective. */
  lemma ConnectFreshKeepsInjective(reg: Reg, identity: string, ws: ConnId)
    requires Injective(reg) && ws !in reg.Values
    ensures Injective(reg[identity := ws])
  {
  }

  /**
   A second join on the same connection keeps the first identity registered,
   so that connection then receives every broadcast at least twice.
   */
  lemma RejoinDuplicates(outbox: Outbox, reg: Reg, first: string, second: string, ws: ConnId, f: Frame)
    requires first in reg && reg[first] == ws && first != second && ws in outbox
    ensures first in reg[second := ws] && reg[second := ws][first] == ws
    ensures Multiplicity(reg[second := ws], ws) >= 2
    ensures |Delivered(outbox, reg[second := ws], f)[ws]| >= |outbox[ws]| + 2
  {
    SharedHandleDoubles(reg[second := ws], first, second);
    DeliveredCount(outbox, reg[second := ws], f, ws);
  }

  /**
   On a disconnect from an injective registry, the "left" notice reaches every
   remaining entry once and not the departing connection.
   */
  lemma LeaveNotice(outbox: Outbox, reg: Reg, identity: string, ts: string, c: ConnId)
    requires Injective(reg) && identity in reg && c in outbox
    ensures Delivered(outbox, Removed(reg, identity), LeftNotice(identity, ts))[c]
            == outbox[c] + (if c in reg.Values && c != reg[identity] then [LeftNotice(identity, ts)] else [])
  {
    var rest := Removed(reg, identity);
    assert Injective(rest);
    DeliveredOnce(outbox, rest, LeftNotice(identity, ts), c);
    if c in reg.Values && c != reg[identity] {
      var k :| k in reg && reg[k] == c;
      assert k in rest;
    }
  }

  /** The process-wide state: the connection manager, the transcript, the store and the network. */
  class ChatServer {
    const manager: ConnectionManager
    const net: Transport
    var history: seq<Message>
    var store: Store

    /** Every registered handle is an accepted connection, and the store mirrors the transcript. */
    ghost predicate Valid()
      reads this, manager, net
    {
      manager.activeConnections.Values <= net.outbox.Keys && Load(store) == history
    }

    /** Startup: load the transcript from the store, or start empty when the key is absent. */
    constructor (store0: Store)
      ensures Valid() && fresh(manager) && fresh(net)
      ensures history == Load(store0) && store == store0
      ensures manager.activeConnections == map[] && net.outbox == map[]
    {
      manager := new ConnectionManager();
      net := new Transport();
      store := store0;
      history := Load(store0);
    }

    /** Sends the transcript to `ws`, one message per frame, in order. */
    method ReplayTo(ws: ConnId)
      requires Valid() && ws in net.outbox
      modifies net
      ensures Valid()
      ensures net.outbox == old(net.outbox)[ws := old(net.outbox)[ws] + Replay(history)]
    {
      ghost var start := net.outbox;
      var i := 0;
      assert history[..0] == [] && Replay(history[..0]) == [];
      assert start[ws] + [] == start[ws];
      assert start[ws := start[ws]] == start;
      while i < |history|
        invariant 0 <= i <= |history|
        invariant net.outbox == start[ws := start[ws] + Replay(history[..i])]
      {
        assert history[..i + 1][..i] == history[..i];
        assert Replay(history[..i + 1]) == Replay(history[..i]) + [Chat(history[i])];
        ghost var done := start[ws] + Replay(history[..i]);
        net.SendText(ws, Chat(history[i]));
        assert done + [Chat(history[i])] == start[ws] + Replay(history[..i + 1]);
        i := i + 1;
      }
      assert history[..i] == history;
    }

    /** Shutdown: write the whole transcript to the store once more. */
    method Shutdown()
      requires Valid()
      modifies this
      ensures Valid() && history == old(history)
      ensures store == Save(old(store), history)
    {
      store := Save(store, history);
    }
  }

  /** Where a connection's handler is: reading frames, ended by a disconnect, or ended by an exception. */
  datatype Phase = Running | Closed | Aborted

  /**
   Frames that raise inside the handler before anything is changed: data that
   is not a JSON object, a send without "content", or a send before any join
   (the message cannot be built without a username).
   */
  predicate Fails(frame: Inbound, username: Option<string>)
  {
    frame.Unparseable? || (frame.SendFrame? && (frame.content.None? || username.None?))
  }

  /** The handler of one WebSocket connection; `username` is its current identity. */
  class Endpoint {
    const ws: ConnId
    const server: ChatServer
    var username: Option<string>
    var phase: Phase

    ghost predicate Valid()
      reads this, server, server.manager, server.net
    {
      server.Valid() && ws in server.net.outbox
    }

    /** Accepts the connection: no identity yet, nothing sent. */
    constructor (server: ChatServer, ws: ConnId)
      requires server.Valid() && ws !in server.net.outbox
      modifies server.net
      ensures Valid() && this.server == server && this.ws == ws
      ensures username == None && phase == Running
      ensures server.net.outbox == old(server.net.outbox)[ws := []]
    {
      this.server := server;
      this.ws := ws;
      username := None;
      phase := Running;
      new;
      server.net.Accept(ws);
    }

    /**
     Handles one inbound frame. `suffix` is the random hex suffix a join uses
     and `ts` the current time as text.
     */
    method Receive(frame: Inbound, suffix: string, ts: string)
      requires Valid() && phase == Running && IsHexSuffix(suffix)
      modifies this, server, server.manager, server.net
      ensures Valid()
      ensures frame.JoinFrame? ==>
        var identity := Identity(frame.name, suffix);
        && username == Some(identity) && phase == Running
        && server.manager.activeConnections == old(server.manager.activeConnections)[identity := ws]
        && server.history == old(server.history) && server.store == old(server.store)
        && server.net.outbox
           == AfterJoin(old(server.net.outbox), server.manager.activeConnections, ws, identity, ts, server.history)
      ensures !frame.JoinFrame? && !Fails(frame, old(username)) ==>
        var m := NextMessage(old(server.history), old(username).value, ts, frame.content.value);
        && username == old(username) && phase == Running
        && server.history == old(server.history) + [m]
        && server.store == Save(old(server.store), server.history)
        && server.manager.activeConnections == old(server.manager.activeConnections)
        && server.net.outbox == Delivered(old(server.net.outbox), server.manager.activeConnections, Chat(m))
      ensures Gapless(old(server.history)) ==> Gapless(server.history)
      ensures Fails(frame, old(username)) ==>
        && username == old(username) && phase == Aborted
        && unchanged(server, server.manager, server.net)
    {
      if frame.JoinFrame? {
        var identity := Identity(frame.name, suffix);
        username := Some(identity);
        server.manager.Connect(ws, identity);
        server.net.SendText(ws, Text(ConnectedText(identity)));
        server.manager.Broadcast(server.net, JoinNotice(identity, ts));
        server.ReplayTo(ws);
      } else if Fails(frame, username) {
        phase := Aborted;
      } else {
        var m := NextMessage(server.history, username.value, ts, frame.content.value);
        if Gapless(server.history) {
          SendKeepsGapless(server.history, username.value, ts, frame.content.value);
        }
        server.history := server.history + [m];
        server.store := Save(server.store, server.history);
        server.manager.Broadcast(server.net, Chat(m));
      }
    }

    /** The transport reports a disconnect: unregister the identity, if any, and announce it. */
    method Close(ts: string)
      requires Valid() && phase == Running
      modifies this, server.manager, server.net
      ensures Valid() && phase == Closed && username == old(username)
      ensures old(username).Some? ==>
        && server.manager.activeConnections == Removed(old(server.manager.activeConnections), old(username).value)
        && server.net.outbox
           == Delivered(old(server.net.outbox), server.manager.activeConnections, LeftNotice(old(username).value, ts))
      ensures old(username).None? ==> unchanged(server.manager, server.net)
    {
      phase := Closed;
      if username.Some? {
        server.manager.Disconnect(username.value);
        server.manager.Broadcast(server.net, LeftNotice(username.value, ts));
      }
    }
  }
}
