/** Push notifications as records: the socket an event is emitted to and the
    event itself. Emission over socket.io is not modelled; a handler's result
    lists the records it would emit, in order. */
module Notify {
  import opened Models
  import opened Presence
  import Seqs

  datatype Event =
    | NewProof(habitId: HabitId, proofId: ProofId, proof: Proof)
    | ProofVerified(proofId: ProofId, action: string, voter: UserId)
  {
    /** The socket.io event name. */
    function Name(): string {
      match this
      case NewProof(_, _, _) => "new-proof"
      case ProofVerified(_, _, _) => "proof-verified"
    }
  }

  datatype Notification = Notification(to: SocketId, event: Event)

  /** The sockets a list of notifications reaches. */
  function Sockets(ns: seq<Notification>): set<SocketId> {
    set n | n in ns :: n.to
  }

  /** The sockets registered for some user of `users`. */
  function OnlineSockets(users: seq<UserId>, p: Directory): set<SocketId> {
    set u | u in users && u in p :: p[u]
  }

  /** Emits `e` to the registered socket of every user in `users`, in order,
      skipping users with no presence entry. Every record carries `e`, and
      the sockets reached are exactly those registered for the given users. */
  function FanOut(users: seq<UserId>, p: Directory, e: Event): (r: seq<Notification>)
    ensures |r| <= |users|
    ensures forall n :: n in r ==> n.event == e
    ensures Sockets(r) == OnlineSockets(users, p)
  {
    if |users| == 0 then []
    else
      var rest := FanOut(users[1..], p, e);
      assert OnlineSockets(users, p)
          == (if users[0] in p then {p[users[0]]} else {}) + OnlineSockets(users[1..], p) by {
        assert forall u :: u in users <==> u == users[0] || u in users[1..];
      }
      if users[0] in p then
        var r := [Notification(p[users[0]], e)] + rest;
        assert Sockets(r) == {p[users[0]]} + Sockets(rest) by {
          assert forall n :: n in r <==> n == r[0] || n in rest;
        }
        r
      else rest
  }

  /** At most once per member: when the member list has no duplicates and no
      two users share a socket, exactly one record goes to each socket
      reached. */
  lemma {:induction false} FanOutOnePerOnlineMember(users: seq<UserId>, p: Directory, e: Event)
    requires Seqs.NoDup(users) && InjectivePresence(p)
    ensures |FanOut(users, p, e)| == |OnlineSockets(users, p)|
  {
    if |users| > 0 {
      var u := users[0];
      var tail := users[1..];
      assert Seqs.NoDup(tail) by {
        forall i, j | 0 <= i < j < |tail| ensures tail[i] != tail[j] {
          assert tail[i] == users[i + 1] && tail[j] == users[j + 1];
        }
      }
      FanOutOnePerOnlineMember(tail, p, e);
      assert OnlineSockets(users, p)
          == (if u in p then {p[u]} else {}) + OnlineSockets(tail, p) by {
        assert forall v :: v in users <==> v == u || v in tail;
      }
      if u in p {
        assert p[u] !in OnlineSockets(tail, p) by {
          forall v | v in tail && v in p ensures p[v] != p[u] {
            var k :| 0 <= k < |tail| && tail[k] == v;
            assert users[k + 1] == v;
          }
        }
      }
    }
  }

  /** A user without a presence entry is never notified: no record of a fan-out
      goes to a socket unless some listed user is registered on it. */
  lemma FanOutOnlyToOnline(users: seq<UserId>, p: Directory, e: Event, n: Notification)
    requires n in FanOut(users, p, e)
    ensures exists u :: u in users && u in p && p[u] == n.to
  {
    assert n.to in Sockets(FanOut(users, p, e));
  }

  /** Every listed user with a presence entry receives `e` on that socket. */
  lemma FanOutReachesOnline(users: seq<UserId>, p: Directory, e: Event, u: UserId)
    requires u in users && u in p
    ensures Notification(p[u], e) in FanOut(users, p, e)
  {
    var r := FanOut(users, p, e);
    assert p[u] in OnlineSockets(users, p);
    assert p[u] in Sockets(r);
    var n :| n in r && n.to == p[u];
  }
}
