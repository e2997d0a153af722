/** Connections from accept to close, the router that drops replies for closed ones, and
    the session updates that connections queue. */
module Network {
  import opened Collections
  import opened Sessions

  const I32_MAX: int := 0x7FFF_FFFF
  const MAX_CLOSED_CONN_IDS: nat := 10000

  // ------------------------------------------------------------ the router

  /** Where the router is with the reply at hand. */
  datatype Reply = Idle | Looking(conn: int) | Missed(conn: int)

  function AfterClosed(closed: set<int>, conn: int): set<int> {
    if |closed + {conn}| > MAX_CLOSED_CONN_IDS then {} else closed + {conn}
  }

  class ConnectionRouter {
    var closedConnIds: set<int>

    constructor ()
      ensures closedConnIds == {}
    {
      closedConnIds := {};
    }

    method ConnClosed(conn: int)
      modifies this
      ensures closedConnIds == AfterClosed(old(closedConnIds), conn)
      ensures closedConnIds == if |old(closedConnIds) + {conn}| > 10000 then {} else old(closedConnIds) + {conn}
    {
      closedConnIds := closedConnIds + {conn};
      if |closedConnIds| > MAX_CLOSED_CONN_IDS {
        closedConnIds := {};
      }
    }

    /** Looks up the sender of a reply; `active` is the connection map at the lookup. */
    method Route(conn: int, active: set<int>) returns (found: bool)
      modifies this
      ensures found == (conn !in old(closedConnIds) && conn in active)
      ensures closedConnIds == old(closedConnIds) + if found then {} else {conn}
    {
      if conn in closedConnIds {
        assert closedConnIds + {conn} == closedConnIds;
        return false;
      }
      if conn !in active {
        closedConnIds := closedConnIds + {conn};
        return false;
      }
      return true;
    }
  }

  // ------------------------------------------------------------ connection ids

  const I32_MIN: int := -0x8000_0000

  /** The id after `id`; 0 and negative numbers are never given out. */
  function AfterAccept(id: int): int {
    if id == I32_MAX then 1 else id + 1
  }

  class ConnectionIds {
    var next: int

    ghost predicate Valid()
      reads this
    {
      1 <= next <= I32_MAX
    }

    constructor ()
      ensures Valid() && next == 1
    {
      next := 1;
    }

    /** The fetch-and-add wraps around; the accept loop then starts again at 1. */
    method Take() returns (id: int)
      requires Valid()
      modifies this
      ensures Valid() && id == old(next) && next == AfterAccept(id)
      ensures next == if id == 2147483647 then 1 else id + 1
    {
      id := next;
      next := if next == I32_MAX then I32_MIN else next + 1;
      if id == I32_MAX {
        next := 1;
      }
    }
  }

  // ------------------------------------------------------------ all steps

  /** `started` and `accepted` are the ids given out and how many; `finals` is where each
      finished connection put its last update in the log; the session task has applied
      `done` updates; `idle` is what the cleanup picked from the session map.  A connection
      that fails may leave the map before its last update. */
  datatype Net = Net(
    nextId: int, accepted: nat, started: set<int>, active: set<int>,
    closedQueue: seq<int>, closed: set<int>, reply: Reply,
    log: seq<Update>, done: nat, finals: map<int, nat>, idle: set<(int, int)>)

  const START := Net(1, 0, {}, {}, [], {}, Idle, [], 0, map[], {})

  datatype Event =
    | Accept
    | Send(conn: int, update: Update)
    | HandshakeTimeout(conn: int)
    | Finish(conn: int)
    | Leave(conn: int)
    | Report(conn: int)
    | ReceiveClosed
    | TakeReply(conn: int)
    | LookUp
    | MarkMissed
    | Process
    | PickIdle(session: int)
    | CleanUp(session: int, conn: int)

  ghost predicate Enabled(s: Net, e: Event) {
    match e
    case Accept => true
    case Send(c, u) => c in s.started && c !in s.finals && !u.RemoveByConnId? && (u.Insert? ==> u.conn == c)
    case HandshakeTimeout(c) => c in s.started
    case Finish(c) => c in s.started && c !in s.finals
    case Leave(c) => c in s.active
    case Report(c) => c in s.finals && c !in s.active
    case ReceiveClosed => s.closedQueue != []
    case TakeReply(c) => s.reply.Idle? && c in s.started
    case LookUp => s.reply.Looking?
    case MarkMissed => s.reply.Missed?
    case Process => s.done < |s.log|
    case PickIdle(id) => s.done <= |s.log| && id in AfterLog(s.log, s.done)
    case CleanUp(id, c) => (id, c) in s.idle
  }

  ghost function Next(s: Net, e: Event): Net
    requires Enabled(s, e)
  {
    match e
    case Accept =>
      s.(nextId := AfterAccept(s.nextId), accepted := s.accepted + 1, started := s.started + {s.nextId},
         active := s.active + {s.nextId}, finals := s.finals - {s.nextId})
    case Send(_, u) => s.(log := s.log + [u])
    case HandshakeTimeout(c) => s.(log := s.log + [RemoveByConnId(c)])
    case Finish(c) => s.(finals := s.finals[c := |s.log|], log := s.log + [RemoveByConnId(c)])
    case Leave(c) => s.(active := s.active - {c})
    case Report(c) => s.(closedQueue := s.closedQueue + [c])
    case ReceiveClosed => s.(closedQueue := s.closedQueue[1..], closed := AfterClosed(s.closed, s.closedQueue[0]))
    case TakeReply(c) => s.(reply := if c in s.closed then Idle else Looking(c))
    case LookUp => s.(reply := if s.reply.conn in s.active then Idle else Missed(s.reply.conn))
    case MarkMissed => s.(closed := s.closed + {s.reply.conn}, reply := Idle)
    case Process => s.(done := s.done + 1)
    case PickIdle(id) => s.(idle := s.idle + {(id, AfterLog(s.log, s.done)[id].conn)})
    case CleanUp(id, c) =>
      s.(idle := s.idle - {(id, c)}, log := if c in s.active then s.log else s.log + [Remove(id)])
  }

  ghost predicate StepAt(states: seq<Net>, events: seq<Event>, i: nat)
    requires i < |events| < |states|
  {
    Enabled(states[i], events[i]) && states[i + 1] == Next(states[i], events[i])
  }

  ghost predicate IsRun(states: seq<Net>, events: seq<Event>) {
    && |states| == |events| + 1 && states[0] == START
    && forall i :: 0 <= i < |events| ==> StepAt(states, events, i)
  }

  // ------------------------------------------------------------ ids

  /** While no more than 2147483647 connections were accepted, every id was given out once. */
  ghost predicate FreshIds(s: Net) {
    s.accepted <= I32_MAX
    && (forall c :: c in s.started <==> 1 <= c <= s.accepted)
    && (s.accepted < I32_MAX ==> s.nextId == s.accepted + 1)
  }

  lemma {:induction false} IdsAreFresh(states: seq<Net>, events: seq<Event>, n: nat)
    requires IsRun(states, events) && n <= |events| && states[n].accepted <= I32_MAX
    ensures FreshIds(states[n])
    decreases n
  {
    if n > 0 {
      assert StepAt(states, events, n - 1);
      IdsAreFresh(states, events, n - 1);
    }
  }

  // ------------------------------------------------------------ the closed set

  /** Ids that are in the closed set, or on their way into it. */
  ghost function Gone(s: Net): set<int> {
    s.closed + SetOf(s.closedQueue) + if s.reply.Missed? then {s.reply.conn} else {}
  }

  ghost predicate Clean(s: Net) {
    Gone(s) !! s.active && Gone(s) <= s.started && s.active <= s.started
    && (s.reply.Looking? ==> s.reply.conn in s.started)
    && forall c :: c in s.finals ==> c in s.started
  }

  /** The id that a step puts on record as closed. */
  ghost function NewlyGone(s: Net, e: Event): set<int>
    requires Enabled(s, e)
  {
    match e
    case Report(c) => {c}
    case LookUp => if s.reply.conn in s.active then {} else {s.reply.conn}
    case _ => {}
  }

  lemma GoneAfter(s: Net, e: Event)
    requires Enabled(s, e)
    ensures Gone(Next(s, e)) <= Gone(s) + NewlyGone(s, e)
    ensures e.Accept? ==> Gone(Next(s, e)) == Gone(s)
  {
  }

  /** The one step that can spoil it is an accept that gives out an id again while its
      former owner is still on record as closed. */
  lemma CleanKeptIff(s: Net, e: Event)
    requires Clean(s) && Enabled(s, e)
    ensures Clean(Next(s, e)) <==> !(e.Accept? && s.nextId in Gone(s))
  {
    var s' := Next(s, e);
    GoneAfter(s, e);
    if e.Accept? {
      assert s.nextId in s'.active && s'.active == s.active + {s.nextId};
    } else {
      assert NewlyGone(s, e) !! s'.active && NewlyGone(s, e) <= s'.started && s'.active <= s.active;
    }
  }

  /** As long as no id was given out twice, the closed set holds no active connection. */
  lemma {:induction false} ClosedSetIsClean(states: seq<Net>, events: seq<Event>, n: nat)
    requires IsRun(states, events) && n <= |events| && states[n].accepted <= I32_MAX
    ensures Clean(states[n])
    decreases n
  {
    if n > 0 {
      assert StepAt(states, events, n - 1);
      ClosedSetIsClean(states, events, n - 1);
      IdsAreFresh(states, events, n - 1);
      CleanKeptIff(states[n - 1], events[n - 1]);
    }
  }

  /** Whether the router finds a sender for a reply. */
  ghost predicate Passes(s: Net, conn: int) {
    conn !in s.closed && conn in s.active
  }

  /** In every state with ids still fresh the closed set is a pure shortcut: a reply passes
      exactly when its connection is active. */
  lemma ReplyPassesIffActive(states: seq<Net>, events: seq<Event>, n: nat, conn: int)
    requires IsRun(states, events) && n <= |events| && states[n].accepted <= I32_MAX
    ensures Passes(states[n], conn) <==> conn in states[n].active
  {
    ClosedSetIsClean(states, events, n);
  }

  /** The router's steps for one reply are what `Route` does: the reply passes if and only if
      its connection is active and not on record, and otherwise is put on record. */
  lemma RouteBySteps(s: Net, conn: int)
    requires s.reply.Idle? && conn in s.started
    ensures var s1 := Next(s, TakeReply(conn));
            if conn in s.closed then s1 == s
            else s1.reply == Looking(conn) &&
                 var s2 := Next(s1, LookUp);
                 if conn in s.active then s2 == s
                 else s2.reply == Missed(conn) && Next(s2, MarkMissed) == s.(closed := s.closed + {conn})
  {
  }

  /** A connection that ends: its last update removes its sessions, it leaves the map, and its
      report puts it on record as closed. */
  lemma DepartureBySteps(s: Net, conn: int)
    requires conn in s.started && conn !in s.finals && conn in s.active && s.closedQueue == []
    ensures var s1 := Next(s, Finish(conn));
            var s2 := Next(s1, Leave(conn));
            var s3 := Next(s2, Report(conn));
            var s4 := Next(s3, ReceiveClosed);
            && s4.log == s.log + [RemoveByConnId(conn)] && s4.finals == s.finals[conn := |s.log|]
            && s4.active == s.active - {conn} && s4.closedQueue == []
            && s4.closed == if |s.closed + {conn}| > 10000 then {} else s.closed + {conn}
  {
  }

  /** The handshake timeout removes the sessions of its connection; the cleanup removes what
      it picked unless the connection is active again. */
  lemma RemovalsAreLogged(s: Net, conn: int, session: int)
    ensures Enabled(s, HandshakeTimeout(conn)) ==> Next(s, HandshakeTimeout(conn)).log == s.log + [RemoveByConnId(conn)]
    ensures Enabled(s, CleanUp(session, conn)) ==>
              Next(s, CleanUp(session, conn)).log == if conn in s.active then s.log else s.log + [Remove(session)]
  {
  }

  // ------------------------------------------------------------ sessions

  /** A finished connection's last update is in the log with no session put in after it. */
  ghost predicate Finished(s: Net) {
    s.done <= |s.log|
    && (forall c :: c in s.finals ==>
          s.finals[c] < |s.log| && s.log[s.finals[c]] == RemoveByConnId(c) && NoInsertFrom(s.log, s.finals[c], c))
  }

  lemma FinishedKept(s: Net, e: Event)
    requires Finished(s) && Enabled(s, e)
    ensures Finished(Next(s, e))
  {
  }

  lemma {:induction false} RunsFinish(states: seq<Net>, events: seq<Event>, n: nat)
    requires IsRun(states, events) && n <= |events|
    ensures Finished(states[n])
    decreases n
  {
    if n > 0 {
      assert StepAt(states, events, n - 1);
      RunsFinish(states, events, n - 1);
      FinishedKept(states[n - 1], events[n - 1]);
    }
  }

  /** Once a connection's last update is applied the session map holds no session of it. */
  lemma NoSessionOfFinished(states: seq<Net>, events: seq<Event>, n: nat, conn: int)
    requires IsRun(states, events) && n <= |events|
    requires conn in states[n].finals && states[n].finals[conn] < states[n].done <= |states[n].log|
    ensures OfConn(AfterLog(states[n].log, states[n].done), conn) == {}
  {
    RunsFinish(states, events, n);
    var s := states[n];
    NoSessionAfterRemoval(s.log, s.finals[conn], conn, s.done);
  }

  ghost predicate InsertedFor(log: seq<Update>, id: int, conn: int) {
    exists i :: 0 <= i < |log| && log[i].Insert? && log[i].session == id && log[i].conn == conn
  }

  /** Every session id was only ever put in for one connection. */
  ghost predicate UniqueSessions(log: seq<Update>) {
    forall id, c, d :: InsertedFor(log, id, c) && InsertedFor(log, id, d) ==> c == d
  }

  lemma InsertedStays(log: seq<Update>, more: seq<Update>, id: int, c: int)
    ensures InsertedFor(log + more, id, c) <==> InsertedFor(log, id, c) || InsertedFor(more, id, c)
  {
    if InsertedFor(log, id, c) {
      var i :| 0 <= i < |log| && log[i].Insert? && log[i].session == id && log[i].conn == c;
      assert (log + more)[i] == log[i];
    }
    if InsertedFor(more, id, c) {
      var i :| 0 <= i < |more| && more[i].Insert? && more[i].session == id && more[i].conn == c;
      assert (log + more)[|log| + i] == more[i];
    }
  }

  /** What the cleanup picked was put in for that connection, and that one was accepted. */
  ghost predicate Picked(s: Net) {
    s.done <= |s.log|
    && (forall p :: p in s.idle ==> InsertedFor(s.log, p.0, p.1))
    && (forall i :: 0 <= i < |s.log| && s.log[i].Insert? ==> s.log[i].conn in s.started)
  }

  lemma PickedKept(s: Net, e: Event)
    requires Picked(s) && Enabled(s, e)
    ensures Picked(Next(s, e))
  {
    var s' := Next(s, e);
    var more := s'.log[|s.log|..];
    assert s'.log == s.log + more;
    forall p | p in s'.idle ensures InsertedFor(s'.log, p.0, p.1) {
      if p !in s.idle {
        SessionsWereInserted(s.log, s.done, p.0);
      }
      InsertedStays(s.log, more, p.0, p.1);
    }
  }

  lemma {:induction false} RunsPick(states: seq<Net>, events: seq<Event>, n: nat)
    requires IsRun(states, events) && n <= |events|
    ensures Picked(states[n])
    decreases n
  {
    if n > 0 {
      assert StepAt(states, events, n - 1);
      RunsPick(states, events, n - 1);
      PickedKept(states[n - 1], events[n - 1]);
    }
  }

  lemma StaysLeft(s: Net, e: Event, conn: int)
    requires FreshIds(s) && Enabled(s, e) && Next(s, e).accepted <= I32_MAX
    requires conn in s.started && conn !in s.active
    ensures conn in Next(s, e).started && conn !in Next(s, e).active && s.log <= Next(s, e).log
  {
  }

  /** A connection that has left the map stays out of it, and the log only grows. */
  lemma {:induction false} LeftForGood(states: seq<Net>, events: seq<Event>, n: nat, m: nat, conn: int)
    requires IsRun(states, events) && n <= m <= |events| && states[m].accepted <= I32_MAX
    requires conn in states[n].started && conn !in states[n].active
    ensures conn in states[m].started && conn !in states[m].active && states[n].log <= states[m].log
    decreases m - n
  {
    if n < m {
      var s, e := states[m - 1], events[m - 1];
      assert StepAt(states, events, m - 1);
      LeftForGood(states, events, n, m - 1, conn);
      IdsAreFresh(states, events, m - 1);
      StaysLeft(s, e, conn);
    }
  }

  /** The idle cleanup asks to remove a session only when its connection has left the map
      of active connections, and as long as ids are fresh and every session id belongs to
      one connection, at no later time is that session one of an active connection. */
  lemma CleanUpSparesActive(states: seq<Net>, events: seq<Event>, n: nat, m: nat, id: int, conn: int)
    requires IsRun(states, events) && n < |events| && n < m <= |events|
    requires events[n] == CleanUp(id, conn) && states[n + 1].log == states[n].log + [Remove(id)]
    requires states[m].accepted <= I32_MAX && UniqueSessions(states[m].log)
    requires states[m].done <= |states[m].log| && id in AfterLog(states[m].log, states[m].done)
    ensures conn !in states[n].active
    ensures AfterLog(states[m].log, states[m].done)[id].conn == conn && conn !in states[m].active
  {
    RunsPick(states, events, n);
    assert StepAt(states, events, n);
    var i :| 0 <= i < |states[n].log| && states[n].log[i].Insert?
             && states[n].log[i].session == id && states[n].log[i].conn == conn;
    LeftForGood(states, events, n, m, conn);
    var log := states[m].log;
    InsertedStays(states[n].log, log[|states[n].log|..], id, conn);
    assert log == states[n].log + log[|states[n].log|..];
    SessionsWereInserted(log, states[m].done, id);
    assert InsertedFor(log, id, AfterLog(log, states[m].done)[id].conn);
  }
}
