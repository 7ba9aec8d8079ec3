/**
 The connection registry (`ConnectionManager`) and the per-connection outboxes
 it broadcasts into. The registry maps session identities to connection
 handles; the same handle may appear under several identities.
 */
module Registry {
  import opened ChatTypes

  type Reg = map<string, ConnId>
  type Outbox = map<ConnId, seq<Frame>>

  /** The registry after removing `id`, which may be absent. */
  function Removed(reg: Reg, id: string): (r: Reg)
    ensures r.Keys == reg.Keys - {id}
    ensures forall k :: k in r ==> r[k] == reg[k]
  {
    if id in reg then reg - {id} else reg
  }

  /** Removing twice leaves the registry that removing once leaves. */
  lemma RemovedIdempotent(reg: Reg, id: string)
    ensures Removed(Removed(reg, id), id) == Removed(reg, id)
  {
  }

  /** No two identities share a connection handle. */
  ghost predicate Injective(reg: Reg)
  {
    forall a, b :: a in reg && b in reg && reg[a] == reg[b] ==> a == b
  }

  /** `n` copies of `f`. */
  function Repeat(f: Frame, n: nat): (r: seq<Frame>)
    ensures |r| == n && forall i :: 0 <= i < n ==> r[i] == f
  {
    if n == 0 then [] else Repeat(f, n - 1) + [f]
  }

  /** The identities among `ids` that the registry maps to `c`. */
  function Holders(reg: Reg, ids: set<string>, c: ConnId): set<string>
  {
    set id | id in ids && id in reg && reg[id] == c
  }

  /** How many registry entries point at `c`: the number of copies a broadcast sends it. */
  function Multiplicity(reg: Reg, c: ConnId): nat
  {
    |Holders(reg, reg.Keys, c)|
  }

  /** Adding one more identity to the visited set adds one holder exactly when it points at `c`. */
  lemma HoldersAdd(reg: Reg, ids: set<string>, id: string, c: ConnId)
    requires id !in ids && id in reg
    ensures |Holders(reg, ids + {id}, c)| == |Holders(reg, ids, c)| + (if reg[id] == c then 1 else 0)
  {
    if reg[id] == c {
      assert Holders(reg, ids + {id}, c) == Holders(reg, ids, c) + {id};
    } else {
      assert Holders(reg, ids + {id}, c) == Holders(reg, ids, c);
    }
  }

  /**
   A handle that is no value of the registry gets nothing; in an injective
   registry a registered handle gets exactly one copy.
   */
  lemma MultiplicityInjective(reg: Reg, c: ConnId)
    requires Injective(reg)
    ensures Multiplicity(reg, c) == if c in reg.Values then 1 else 0
  {
    if c in reg.Values {
      var id :| id in reg && reg[id] == c;
      assert Holders(reg, reg.Keys, c) == {id};
    } else {
      assert Holders(reg, reg.Keys, c) == {};
    }
  }

  /**
   The outboxes after broadcasting `f` over `reg`: every handle receives one
   copy per registry entry that points at it, and no other frame.
   */
  function Delivered(outbox: Outbox, reg: Reg, f: Frame): (r: Outbox)
    ensures r.Keys == outbox.Keys
    ensures forall c :: c in outbox ==> outbox[c] <= r[c]
    ensures forall c, i :: c in outbox && |outbox[c]| <= i < |r[c]| ==> r[c][i] == f
    ensures forall c :: c in outbox && c !in reg.Values ==> r[c] == outbox[c]
  {
    var r := map c | c in outbox :: outbox[c] + Repeat(f, Multiplicity(reg, c));
    forall c | c in outbox && c !in reg.Values
      ensures r[c] == outbox[c]
    {
      assert Holders(reg, reg.Keys, c) == {};
    }
    r
  }

  /** In an injective registry a broadcast appends `f` exactly once to every registered handle. */
  lemma DeliveredOnce(outbox: Outbox, reg: Reg, f: Frame, c: ConnId)
    requires Injective(reg) && c in outbox
    ensures Delivered(outbox, reg, f)[c] == outbox[c] + (if c in reg.Values then [f] else [])
  {
    MultiplicityInjective(reg, c);
  }

  /** A broadcast appends to each outbox exactly one frame per registry entry pointing at it. */
  lemma DeliveredCount(outbox: Outbox, reg: Reg, f: Frame, c: ConnId)
    requires c in outbox
    ensures |Delivered(outbox, reg, f)[c]| == |outbox[c]| + Multiplicity(reg, c)
  {
  }

  /** A handle registered under two identities receives every broadcast at least twice. */
  lemma SharedHandleDoubles(reg: Reg, id1: string, id2: string)
    requires id1 in reg && id2 in reg && id1 != id2 && reg[id1] == reg[id2]
    ensures Multiplicity(reg, reg[id1]) >= 2
  {
    var c := reg[id1];
    var pair := {id1, id2};
    assert pair <= Holders(reg, reg.Keys, c);
    assert |pair| == 2;
    SubsetCard(pair, Holders(reg, reg.Keys, c));
  }

  lemma SubsetCard<T>(a: set<T>, b: set<T>)
    requires a <= b
    ensures |a| <= |b|
  {
    assert b == a + (b - a);
  }

  /** `now` is `start` after sending `f` once for each identity of `done`. */
  ghost predicate SentTo(start: Outbox, now: Outbox, reg: Reg, done: set<string>, f: Frame)
  {
    && now.Keys == start.Keys
    && forall c :: c in now ==> now[c] == start[c] + Repeat(f, |Holders(reg, done, c)|)
  }

  /** One iteration of the broadcast loop keeps `SentTo`, with `id` added to the visited set. */
  lemma SentToStep(start: Outbox, now: Outbox, reg: Reg, done: set<string>, id: string, f: Frame)
    requires SentTo(start, now, reg, done, f)
    requires id in reg && id !in done && reg[id] in now
    ensures SentTo(start, now[reg[id] := now[reg[id]] + [f]], reg, done + {id}, f)
  {
    var next := now[reg[id] := now[reg[id]] + [f]];
    forall c | c in next
      ensures next[c] == start[c] + Repeat(f, |Holders(reg, done + {id}, c)|)
    {
      HoldersAdd(reg, done, id, c);
    }
  }

  /** The connection table: `active_connections` in `ConnectionManager`. */
  class ConnectionManager {
    var activeConnections: Reg

    constructor ()
      ensures activeConnections == map[]
    {
      activeConnections := map[];
    }

    /** Inserts or overwrites the entry for `username`. */
    method Connect(ws: ConnId, username: string)
      modifies this
      ensures activeConnections == old(activeConnections)[username := ws]
    {
      activeConnections := activeConnections[username := ws];
    }

    /** Removes the entry for `username`; nothing happens when it is absent. */
    method Disconnect(username: string)
      modifies this
      ensures activeConnections == Removed(old(activeConnections), username)
    {
      if username in activeConnections {
        activeConnections := activeConnections - {username};
      }
    }

    /** Sends `f` to the handle of every registry entry. No send can fail in this model. */
    method Broadcast(net: Transport, f: Frame)
      requires activeConnections.Values <= net.outbox.Keys
      modifies net
      ensures net.outbox == Delivered(old(net.outbox), activeConnections, f)
    {
      var todo := activeConnections.Keys;
      ghost var done: set<string> := {};
      while todo != {}
        invariant todo !! done && todo + done == activeConnections.Keys
        invariant SentTo(old(net.outbox), net.outbox, activeConnections, done, f)
        decreases todo
      {
        var id :| id in todo;
        var ws := activeConnections[id];
        ghost var before := net.outbox;
        net.SendText(ws, f);
        SentToStep(old(net.outbox), before, activeConnections, done, id, f);
        todo := todo - {id};
        done := done + {id};
      }
      assert done == activeConnections.Keys;
    }
  }

  /** The network side: what has been written to each accepted connection. */
  class Transport {
    var outbox: Outbox

    constructor ()
      ensures outbox == map[]
    {
      outbox := map[];
    }

    /** Accepts a new connection, which has been sent nothing yet. */
    method Accept(ws: ConnId)
      requires ws !in outbox
      modifies this
      ensures outbox == old(outbox)[ws := []]
    {
      outbox := outbox[ws := []];
    }

    /** Writes one frame to connection `ws`. */
    method SendText(ws: ConnId, f: Frame)
      requires ws in outbox
      modifies this
      ensures outbox == old(outbox)[ws := old(outbox)[ws] + [f]]
    {
      outbox := outbox[ws := outbox[ws] + [f]];
    }
  }
}
