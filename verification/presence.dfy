/** The presence map `onlineUsers` kept by the socket handlers
    (server.js:81-93). Although the source comment calls it a map from socket
    id to user id, `register` stores user id -> socket id, and that is what is
    modelled here. */
module Presence {
  import opened Models

  type Directory = map<UserId, SocketId>

  /** No two users share a socket. The source does not enforce this: one
      socket may register several user ids. */
  ghost predicate InjectivePresence(p: Directory) {
    forall a, b :: a in p && b in p && a != b ==> p[a] != p[b]
  }

  /** `register(userId)` on a socket: the user's entry is set to this socket,
      overwriting any earlier one; every other entry is kept. */
  function Register(p: Directory, u: UserId, sid: SocketId): (r: Directory)
    ensures u in r && r[u] == sid
    ensures r.Keys == p.Keys + {u}
    ensures forall v :: v in p && v != u ==> r[v] == p[v]
  {
    p[u := sid]
  }

  /** `disconnect` on a socket removes every user whose entry is that socket
      and leaves all other entries as they were. */
  function Disconnect(p: Directory, sid: SocketId): (r: Directory)
    ensures forall u :: u in r <==> u in p && p[u] != sid
    ensures forall u :: u in r ==> r[u] == p[u]
  {
    map u | u in p && p[u] != sid :: p[u]
  }

  /** The cleanup loop as the source writes it: a scan over the keys that
      deletes each entry whose value is the closing socket. It computes the
      same directory as `Disconnect`. */
  method SweepDisconnect(p: Directory, sid: SocketId) returns (r: Directory)
    ensures r == Disconnect(p, sid)
  {
    r := p;
    var pending := p.Keys;
    while pending != {}
      invariant pending <= p.Keys
      invariant forall u :: u in r <==> u in p && (u in pending || p[u] != sid)
      invariant forall u :: u in r ==> r[u] == p[u]
      decreases pending
    {
      var u :| u in pending;
      if r[u] == sid {
        r := r - {u};
      }
      pending := pending - {u};
    }
  }

  /** Last write wins: a second registration of the same user replaces the
      first entirely. */
  lemma RegisterLastWriteWins(p: Directory, u: UserId, s1: SocketId, s2: SocketId)
    ensures Register(Register(p, u, s1), u, s2) == Register(p, u, s2)
    ensures Register(Register(p, u, s1), u, s2)[u] == s2
  {
  }

  /** Closing the socket a user is currently registered on removes the user. */
  lemma DisconnectCurrentRemoves(p: Directory, u: UserId, sid: SocketId)
    ensures u !in Disconnect(Register(p, u, sid), sid)
  {
  }

  /** Closing a stale socket, after the user re-registered on a newer one,
      leaves the newer entry in place. */
  lemma DisconnectStaleKeepsNewer(p: Directory, u: UserId, stale: SocketId, current: SocketId)
    requires stale != current
    ensures var d := Disconnect(Register(Register(p, u, stale), u, current), stale);
      u in d && d[u] == current
  {
  }

  /** Disconnecting the same socket twice is the same as once. */
  lemma DisconnectIdempotent(p: Directory, sid: SocketId)
    ensures Disconnect(Disconnect(p, sid), sid) == Disconnect(p, sid)
  {
  }

  /** Afterwards no user is mapped to the closed socket. */
  lemma DisconnectLeavesNoEntry(p: Directory, sid: SocketId)
    ensures sid !in Disconnect(p, sid).Values
  {
  }
}
