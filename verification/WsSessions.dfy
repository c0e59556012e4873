/** The registry of WebSocket sessions: a set of sessions per tenant and a map from socket to session
    that must describe the same sessions. */
module WsSessions {
  import opened Prelude

  /** A connection; `sendFails` says that the next send raises an error. */
  class Socket {
    var open: bool
    var sendFails: bool
    var received: seq<string>

    constructor ()
      ensures open && !sendFails && received == []
    {
      open, sendFails, received := true, false, [];
    }
  }

  class AbortController {
    var aborted: bool

    constructor ()
      ensures !aborted
    {
      aborted := false;
    }
  }

  class SessionEntry {
    const ws: Socket
    const tenantId: string
    var activeControllers: map<string, AbortController>

    constructor (tenantId: string, ws: Socket)
      ensures this.tenantId == tenantId && this.ws == ws && activeControllers == map[]
    {
      this.tenantId, this.ws, activeControllers := tenantId, ws, map[];
    }

    method AbortAll()
      modifies this, activeControllers.Values
      ensures forall c :: c in old(activeControllers.Values) ==> c.aborted
      ensures activeControllers == map[]
    {
      var controllers := activeControllers.Values;
      while controllers != {}
        invariant controllers <= old(activeControllers.Values)
        invariant forall c :: c in old(activeControllers.Values) ==> c in controllers || c.aborted
        modifies old(activeControllers.Values)
        decreases |controllers|
      {
        var controller :| controller in controllers;
        controller.aborted := true;
        controllers := controllers - {controller};
      }
      activeControllers := map[];
    }
  }

  // ---- The two indexes as values ----

  type Sessions = map<string, set<SessionEntry>>
  type BySocket = map<Socket, SessionEntry>

  ghost predicate Agree(sessions: Sessions, bySocket: BySocket) {
    && (forall ws :: ws in bySocket ==>
          && bySocket[ws].ws == ws
          && bySocket[ws].tenantId in sessions
          && bySocket[ws] in sessions[bySocket[ws].tenantId])
    && (forall t :: t in sessions ==> sessions[t] != {})
    && (forall t, e :: t in sessions && e in sessions[t] ==>
          e.tenantId == t && e.ws in bySocket && bySocket[e.ws] == e)
  }

  function Of(sessions: Sessions, tenantId: string): set<SessionEntry> {
    if tenantId in sessions then sessions[tenantId] else {}
  }

  function Added(sessions: Sessions, e: SessionEntry): Sessions {
    sessions[e.tenantId := Of(sessions, e.tenantId) + {e}]
  }

  function Removed(sessions: Sessions, e: SessionEntry): Sessions {
    if Of(sessions, e.tenantId) - {e} == {} then sessions - {e.tenantId}
    else sessions[e.tenantId := Of(sessions, e.tenantId) - {e}]
  }

  /** Registering keeps the indexes in step exactly when the socket was not registered. */
  lemma AddingKeeps(sessions: Sessions, bySocket: BySocket, e: SessionEntry)
    requires Agree(sessions, bySocket) && forall t :: t in sessions ==> e !in sessions[t]
    ensures Agree(Added(sessions, e), bySocket[e.ws := e]) <==> e.ws !in bySocket
  {
    var s, b := Added(sessions, e), bySocket[e.ws := e];
    assert e in s[e.tenantId];
    if e.ws in bySocket {
      var previous := bySocket[e.ws];
      assert previous in sessions[previous.tenantId];
      assert previous in s[previous.tenantId] && b[previous.ws] != previous;
    }
  }

  lemma RemovingKeeps(sessions: Sessions, bySocket: BySocket, ws: Socket)
    requires Agree(sessions, bySocket) && ws in bySocket
    ensures Agree(Removed(sessions, bySocket[ws]), bySocket - {ws})
    ensures forall t :: Of(Removed(sessions, bySocket[ws]), t) == Of(sessions, t) - {bySocket[ws]}
  {
    var e := bySocket[ws];
    var s, b := Removed(sessions, e), bySocket - {ws};
    forall t ensures Of(s, t) == Of(sessions, t) - {e} {
    }
    forall w | w in b ensures b[w].ws == w && b[w] in Of(s, b[w].tenantId) {
      assert b[w] != e && b[w] in Of(sessions, b[w].tenantId);
    }
    forall t, x: SessionEntry | t in s && x in s[t] ensures x.tenantId == t && x.ws in b && b[x.ws] == x {
      assert x in Of(s, t) && x in Of(sessions, t) && x != e;
    }
  }

  lemma Listed(sessions: Sessions, bySocket: BySocket, ws: Socket)
    requires Agree(sessions, bySocket) && ws in bySocket
    ensures bySocket[ws].tenantId in sessions
  {
  }

  /** The index by tenant and the index by socket list the same sessions. */
  lemma SocketsAreRegistered(sessions: Sessions, bySocket: BySocket, t: string)
    requires Agree(sessions, bySocket)
    ensures forall e :: e in Of(sessions, t) ==> e.ws in bySocket && bySocket[e.ws] == e
    ensures forall ws :: ws in Sockets(Of(sessions, t)) <==> ws in bySocket && bySocket[ws].tenantId == t
  {
    forall ws | ws in bySocket && bySocket[ws].tenantId == t ensures ws in Sockets(Of(sessions, t)) {
      assert bySocket[ws] in Of(sessions, t) && bySocket[ws].ws == ws;
    }
  }

  ghost function Sockets(entries: set<SessionEntry>): set<Socket> {
    set e | e in entries :: e.ws
  }

  function Union(sessions: Sessions, tenants: set<string>): set<SessionEntry>
    requires tenants <= sessions.Keys
  {
    set t, e | t in tenants && e in sessions[t] :: e
  }

  lemma {:induction false} OneSocketEach(entries: set<SessionEntry>)
    requires forall e, f :: e in entries && f in entries && e.ws == f.ws ==> e == f
    ensures |Sockets(entries)| == |entries|
  {
    if entries != {} {
      var e :| e in entries;
      OneSocketEach(entries - {e});
      assert Sockets(entries) == Sockets(entries - {e}) + {e.ws};
    }
  }

  lemma SameSize(sessions: Sessions, bySocket: BySocket)
    requires Agree(sessions, bySocket)
    ensures |Union(sessions, sessions.Keys)| == |bySocket|
  {
    var all := Union(sessions, sessions.Keys);
    OneSocketEach(all);
    forall ws | ws in bySocket ensures ws in Sockets(all) {
      assert bySocket[ws] in all && bySocket[ws].ws == ws;
    }
    assert Sockets(all) == bySocket.Keys;
  }

  lemma NothingCounted(sessions: Sessions)
    ensures Union(sessions, {}) == {}
  {
  }

  lemma CountedOnce(sessions: Sessions, bySocket: BySocket, counted: set<string>, t: string)
    requires Agree(sessions, bySocket) && counted <= sessions.Keys && t in sessions && t !in counted
    ensures |Union(sessions, counted + {t})| == |Union(sessions, counted)| + |sessions[t]|
  {
    assert Union(sessions, counted + {t}) == Union(sessions, counted) + sessions[t];
    forall e | e in Union(sessions, counted) ensures e !in sessions[t] {
      var u :| u in counted && e in sessions[u];
      assert e.tenantId == u;
    }
  }

  class WsSessionManager {
    var sessions: Sessions
    var bySocket: BySocket

    ghost predicate Valid()
      reads this
    {
      Agree(sessions, bySocket)
    }

    constructor ()
      ensures Valid() && sessions == map[] && bySocket == map[]
    {
      sessions, bySocket := map[], map[];
    }

    method Register(tenantId: string, ws: Socket) returns (entry: SessionEntry)
      requires Valid()
      modifies this
      ensures fresh(entry) && entry.ws == ws && entry.tenantId == tenantId && entry.activeControllers == map[]
      ensures sessions == Added(old(sessions), entry) && bySocket == old(bySocket)[ws := entry]
      ensures Valid() <==> ws !in old(bySocket)
    {
      entry := new SessionEntry(tenantId, ws);
      AddingKeeps(sessions, bySocket, entry);
      if tenantId !in sessions {
        sessions := sessions[tenantId := {}];
      }
      sessions := sessions[tenantId := sessions[tenantId] + {entry}];
      bySocket := bySocket[ws := entry];
    }

    /** The session of the socket, and the controllers it tracks. */
    ghost function EntryOf(ws: Socket): set<SessionEntry>
      reads this
    {
      if ws in bySocket then {bySocket[ws]} else {}
    }

    ghost function TrackedOn(ws: Socket): set<AbortController>
      reads this, EntryOf(ws)
    {
      if ws in bySocket then bySocket[ws].activeControllers.Values else {}
    }

    /** Every controller tracked on the socket is aborted, its session leaves both indexes, and no other
        session or controller is touched. */
    method Unregister(ws: Socket)
      requires Valid()
      modifies this, EntryOf(ws), TrackedOn(ws)
      ensures Valid()
      ensures bySocket == old(bySocket) - {ws}
      ensures forall t :: Of(sessions, t) == Of(old(sessions), t) - old(EntryOf(ws))
      ensures forall c :: c in old(TrackedOn(ws)) ==> c.aborted
      ensures forall e :: e in old(EntryOf(ws)) ==> e.activeControllers == map[]
    {
      hide Agree;
      if ws !in bySocket {
        return;
      }
      var entry := bySocket[ws];
      assert entry.tenantId in sessions by {
        Listed(sessions, bySocket, ws);
      }
      RemovingKeeps(sessions, bySocket, ws);
      entry.AbortAll();
      var left := sessions[entry.tenantId] - {entry};
      sessions := sessions[entry.tenantId := left];
      if left == {} {
        sessions := sessions - {entry.tenantId};
      }
      bySocket := bySocket - {ws};
      assert sessions == Removed(old(sessions), entry);
    }

    method TrackRequest(ws: Socket, correlationId: string, controller: AbortController)
      modifies EntryOf(ws)
      ensures ws in bySocket ==>
        bySocket[ws].activeControllers == old(bySocket[ws].activeControllers)[correlationId := controller]
    {
      if ws in bySocket {
        var entry := bySocket[ws];
        entry.activeControllers := entry.activeControllers[correlationId := controller];
      }
    }

    method UntrackRequest(ws: Socket, correlationId: string)
      modifies EntryOf(ws)
      ensures ws in bySocket ==>
        bySocket[ws].activeControllers == old(bySocket[ws].activeControllers) - {correlationId}
    {
      if ws in bySocket {
        var entry := bySocket[ws];
        entry.activeControllers := entry.activeControllers - {correlationId};
      }
    }

    ghost function SocketsOf(tenantId: string): set<Socket>
      reads this
    {
      Sockets(Of(sessions, tenantId))
    }

    /** Every open socket registered for the tenant gets the payload exactly once, unless its send fails;
        nothing else is touched. */
    method Push(tenantId: string, payload: string)
      requires Valid()
      modifies SocketsOf(tenantId)
      ensures forall ws :: ws in SocketsOf(tenantId) <==> ws in bySocket && bySocket[ws].tenantId == tenantId
      ensures forall ws :: ws in SocketsOf(tenantId) ==>
        && ws.open == old(ws.open) && ws.sendFails == old(ws.sendFails)
        && ws.received == old(ws.received) + if ws.open && !ws.sendFails then [payload] else []
    {
      hide Agree;
      SocketsAreRegistered(sessions, bySocket, tenantId);
      var todo := if tenantId in sessions then sessions[tenantId] else {};
      ghost var targets := SocketsOf(tenantId);
      while todo != {}
        invariant todo <= Of(sessions, tenantId)
        invariant forall ws :: ws in targets ==>
          && ws.open == old(ws.open) && ws.sendFails == old(ws.sendFails)
          && ws.received == old(ws.received) +
            if ws.open && !ws.sendFails && bySocket[ws] !in todo then [payload] else []
        modifies targets
        decreases |todo|
      {
        var entry :| entry in todo;
        if entry.ws.open && !entry.ws.sendFails {
          entry.ws.received := entry.ws.received + [payload];
        }
        todo := todo - {entry};
      }
    }

    method GetSessionCount(tenantId: string) returns (n: nat)
      requires Valid()
      ensures n == |Of(sessions, tenantId)|
    {
      n := if tenantId in sessions then |sessions[tenantId]| else 0;
    }

    /** The sessions of all tenants are as many as the registered sockets. */
    method GetTotalSessionCount() returns (total: nat)
      requires Valid()
      ensures total == |bySocket|
    {
      hide Agree, Union;
      total := 0;
      assert |Union(sessions, {})| == 0 by {
        NothingCounted(sessions);
      }
      var tenants := sessions.Keys;
      ghost var counted: set<string> := {};
      while tenants != {}
        invariant tenants <= sessions.Keys && counted == sessions.Keys - tenants
        invariant total == |Union(sessions, counted)|
        decreases |tenants|
      {
        var t :| t in tenants;
        CountedOnce(sessions, bySocket, counted, t);
        total := total + |sessions[t]|;
        tenants := tenants - {t};
        counted := counted + {t};
      }
      assert counted == sessions.Keys;
      SameSize(sessions, bySocket);
    }

    /** A copy: the sockets registered for the tenant, each once. */
    method GetSockets(tenantId: string) returns (sockets: seq<Socket>)
      requires Valid()
      ensures NoDuplicates(sockets) && (set ws | ws in sockets) == SocketsOf(tenantId)
    {
      sockets := [];
      var todo := if tenantId in sessions then sessions[tenantId] else {};
      while todo != {}
        invariant todo <= Of(sessions, tenantId)
        invariant NoDuplicates(sockets)
        invariant forall e :: e in Of(sessions, tenantId) ==> (e in todo <==> e.ws !in sockets)
        invariant forall ws :: ws in sockets ==> ws in SocketsOf(tenantId)
        decreases |todo|
      {
        var entry :| entry in todo;
        sockets := sockets + [entry.ws];
        todo := todo - {entry};
      }
    }
  }
}
