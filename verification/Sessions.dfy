/** The session map: one task applies queued updates in order. */
module Sessions {
  import Collections

  datatype SessionInfo = SessionInfo(conn: int, lastReceived: int)

  type SessionMap = map<int, SessionInfo>

  datatype Update =
    | Insert(session: int, conn: int, at: int)
    | UpdateHandshake(session: int, at: int)
    | Remove(session: int)
    | RemoveByConnId(conn: int)

  function OfConn(sessions: SessionMap, conn: int): set<int> {
    set id | id in sessions && sessions[id].conn == conn
  }

  function Applied(sessions: SessionMap, u: Update): SessionMap {
    match u
    case Insert(id, conn, at) => sessions[id := SessionInfo(conn, at)]
    case UpdateHandshake(id, at) =>
      if id in sessions then sessions[id := sessions[id].(lastReceived := at)] else sessions
    case Remove(id) => sessions - {id}
    case RemoveByConnId(conn) => sessions - OfConn(sessions, conn)
  }

  class UpdateProcessor {
    var sessions: SessionMap

    constructor ()
      ensures sessions == map[]
    {
      sessions := map[];
    }

    /** Applies one update; `logout` are the sessions whose logout time is then stored. */
    method Process(u: Update) returns (logout: set<int>)
      modifies this
      ensures sessions == Applied(old(sessions), u)
      ensures u.Insert? ==> sessions == old(sessions)[u.session := SessionInfo(u.conn, u.at)] && logout == {}
      ensures u.UpdateHandshake? ==>
                && logout == {} && sessions.Keys == old(sessions).Keys
                && (forall id :: id in sessions && id != u.session ==> sessions[id] == old(sessions)[id])
                && (u.session in sessions ==>
                      sessions[u.session] == SessionInfo(old(sessions)[u.session].conn, u.at))
      ensures u.Remove? ==> sessions == old(sessions) - {u.session} && logout == {u.session}
      ensures u.RemoveByConnId? ==>
                && logout == (set id | id in old(sessions) && old(sessions)[id].conn == u.conn)
                && sessions == old(sessions) - logout
    {
      logout := {};
      match u
      case Insert(id, conn, at) =>
        sessions := sessions[id := SessionInfo(conn, at)];
      case UpdateHandshake(id, at) =>
        if id in sessions {
          sessions := sessions[id := sessions[id].(lastReceived := at)];
        }
      case Remove(id) =>
        logout := {id};
        sessions := sessions - {id};
      case RemoveByConnId(conn) =>
        var left := sessions.Keys;
        ghost var all := sessions;
        while left != {}
          invariant left <= all.Keys && logout == OfConn(all, conn) - left
          invariant sessions == all - logout
          decreases left
        {
          Collections.NonEmpty(left);
          var id :| id in left;
          assert id in sessions;
          if sessions[id].conn == conn {
            logout := logout + {id};
            sessions := sessions - {id};
          }
          left := left - {id};
        }
    }
  }

  /** A session and its connection, idle for longer than the limit. */
  predicate IsIdle(sessions: SessionMap, now: int, limit: int, p: (int, int)) {
    p.0 in sessions && sessions[p.0].conn == p.1 && now - sessions[p.0].lastReceived > limit
  }

  method PickIdle(sessions: SessionMap, now: int, limit: int) returns (picked: set<(int, int)>)
    ensures forall p :: p in picked <==> IsIdle(sessions, now, limit, p)
    ensures forall id, conn :: (id, conn) in picked <==>
              id in sessions && sessions[id].conn == conn && now - sessions[id].lastReceived > limit
  {
    picked := {};
    var left := sessions.Keys;
    while left != {}
      invariant left <= sessions.Keys
      invariant forall p :: p in picked <==> IsIdle(sessions, now, limit, p) && p.0 !in left
      decreases left
    {
      Collections.NonEmpty(left);
      var id :| id in left;
      if now - sessions[id].lastReceived > limit {
        picked := picked + {(id, sessions[id].conn)};
      }
      left := left - {id};
    }
  }

  /** After a handshake the session is not idle until the limit has passed. */
  lemma HandshakeKeepsSession(sessions: SessionMap, id: int, at: int, now: int, limit: int, conn: int)
    requires id in sessions
    ensures var sessions' := Applied(sessions, UpdateHandshake(id, at));
            IsIdle(sessions', now, limit, (id, conn)) <==> conn == sessions[id].conn && at + limit < now
  {
  }

  // ------------------------------------------------------------ the queue as a log

  /** The map after the first `n` updates of the log. */
  function AfterLog(log: seq<Update>, n: nat): SessionMap
    requires n <= |log|
  {
    if n == 0 then map[] else Applied(AfterLog(log, n - 1), log[n - 1])
  }

  /** No session of the connection is put in from position `p` on. */
  ghost predicate NoInsertFrom(log: seq<Update>, p: nat, conn: int) {
    forall i :: p <= i < |log| && log[i].Insert? ==> log[i].conn != conn
  }

  /** Once a connection's last update, its removal, is applied, no later state of the map
      has a session of it. */
  lemma {:induction false} NoSessionAfterRemoval(log: seq<Update>, p: nat, conn: int, n: nat)
    requires p < n <= |log| && log[p] == RemoveByConnId(conn) && NoInsertFrom(log, p, conn)
    ensures OfConn(AfterLog(log, n), conn) == {}
  {
    if n > p + 1 {
      NoSessionAfterRemoval(log, p, conn, n - 1);
      var before, after := AfterLog(log, n - 1), AfterLog(log, n);
      forall id | id in after ensures after[id].conn != conn {
        assert id in before && before[id].conn == conn ==> id in OfConn(before, conn);
      }
    }
  }

  /** Whose sessions the map can hold: those put in by some update. */
  lemma {:induction false} SessionsWereInserted(log: seq<Update>, n: nat, id: int)
    requires n <= |log| && id in AfterLog(log, n)
    ensures exists i :: 0 <= i < n && log[i].Insert? && log[i].session == id && log[i].conn == AfterLog(log, n)[id].conn
  {
    var u := log[n - 1];
    if !(u.Insert? && u.session == id) {
      SessionsWereInserted(log, n - 1, id);
    }
  }

  /** Update `i` put the session in for the connection, and nothing among the first `n` has
      replaced or removed it since. */
  ghost predicate PutInBy(log: seq<Update>, n: int, i: int, id: int, conn: int) {
    && 0 <= i < n <= |log| && log[i].Insert? && log[i].session == id && log[i].conn == conn
    && forall j :: i < j < n ==>
         && !(log[j].Insert? && log[j].session == id)
         && log[j] != Remove(id) && log[j] != RemoveByConnId(conn)
  }

  /** Exactly which sessions the map holds, and for whom. */
  lemma {:induction false} SessionPresentIff(log: seq<Update>, n: nat, id: int, conn: int)
    requires n <= |log|
    ensures id in AfterLog(log, n) && AfterLog(log, n)[id].conn == conn <==> exists i :: PutInBy(log, n, i, id, conn)
  {
    if n > 0 {
      var m := n - 1;
      SessionPresentIff(log, m, id, conn);
      var u := log[m];
      if u.Insert? && u.session == id && u.conn == conn {
        assert PutInBy(log, n, m, id, conn);
      } else if (u.Insert? && u.session == id) || u == Remove(id) || u == RemoveByConnId(conn) {
        forall i ensures !PutInBy(log, n, i, id, conn) {
          assert PutInBy(log, n, i, id, conn) ==> i < m < n;
        }
      } else {
        var before, after := AfterLog(log, m), AfterLog(log, n);
        assert u.RemoveByConnId? ==> after == before - OfConn(before, u.conn);
        assert id in after && after[id].conn == conn <==> id in before && before[id].conn == conn;
        if i :| PutInBy(log, n, i, id, conn) {
          assert PutInBy(log, m, i, id, conn);
        }
        if i :| PutInBy(log, m, i, id, conn) {
          assert PutInBy(log, n, i, id, conn);
        }
      }
    }
  }
}
