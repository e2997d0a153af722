/** The queue of failed database writes: sessions go to KeyDB, or to a bounded buffer
    when KeyDB refuses them; a periodic task flushes the buffer and retries the inserts. */
module DbRetry {
  import opened Collections
  import opened Fates

  const BUFFER_MAX_SESSIONS: nat := 500
  const BUFFER_MAX_BY_KEY: nat := 200
  const FLUSH_BATCH_SIZE: nat := 50

  datatype Session = Session(id: int, body: string)

  datatype Entry = Entry(rowId: int, body: string)

  // ------------------------------------------------------------ the buffer

  /** A full buffer loses its oldest session. */
  function PushBounded(buf: seq<Session>, s: Session): seq<Session> {
    (if |buf| >= BUFFER_MAX_SESSIONS then buf[1..] else buf) + [s]
  }

  function PushedAll(buf: seq<Session>, more: seq<Session>): seq<Session> {
    if more == [] then buf else PushBounded(PushedAll(buf, more[..|more| - 1]), more[|more| - 1])
  }

  /** The last 500. */
  function Newest(all: seq<Session>): seq<Session> {
    if |all| <= 500 then all else all[|all| - 500..]
  }

  /** The front of the buffer is the oldest: however many sessions are pushed, it holds the
      last 500 that came, in the order in which they came. */
  lemma {:induction false} NewestStay(buf: seq<Session>, more: seq<Session>)
    requires |buf| <= 500
    ensures PushedAll(buf, more) == Newest(buf + more)
    decreases |more|
  {
    if more == [] {
      assert buf + more == buf;
    } else {
      var n := |more| - 1;
      NewestStay(buf, more[..n]);
      PushToNewest(buf + more[..n], more[n]);
      assert buf + more == buf + more[..n] + [more[n]];
    }
  }

  lemma PushToNewest(all: seq<Session>, s: Session)
    ensures PushBounded(Newest(all), s) == Newest(all + [s])
  {
    if 500 <= |all| {
      assert all[|all| - 500..][1..] == all[|all| - 499..];
      assert (all + [s])[|all| - 499..] == all[|all| - 499..] + [s];
    }
  }

  /** A failed chunk goes back as far as there is room. */
  function ReAdd(buf: seq<Session>, chunk: seq<Session>): seq<Session>
    decreases |chunk|
  {
    if chunk == [] then buf
    else ReAdd(if |buf| < BUFFER_MAX_SESSIONS then buf + [chunk[0]] else buf, chunk[1..])
  }

  lemma {:induction false} ReAddFills(buf: seq<Session>, chunk: seq<Session>)
    requires |buf| <= BUFFER_MAX_SESSIONS
    ensures var room := BUFFER_MAX_SESSIONS - |buf|;
            ReAdd(buf, chunk) == buf + (if |chunk| <= room then chunk else chunk[..room])
    decreases |chunk|
  {
    if chunk == [] {
      assert buf + chunk == buf;
    } else if |buf| < BUFFER_MAX_SESSIONS {
      ReAddFills(buf + [chunk[0]], chunk[1..]);
      var room := BUFFER_MAX_SESSIONS - |buf|;
      if |chunk| <= room {
        assert buf + [chunk[0]] + chunk[1..] == buf + chunk;
      } else {
        assert buf + [chunk[0]] + chunk[1..][..room - 1] == buf + chunk[..room];
      }
    } else {
      ReAddFills(buf, chunk[1..]);
      assert buf + chunk[1..][..0] == buf == buf + chunk[..0];
    }
  }

  /** Each method runs under the buffer's mutex, so it is one atomic step. */
  class RetryBuffer {
    var sessions: seq<Session>
    var connServers: map<string, Entry>
    var users: map<string, Entry>

    ghost predicate Valid()
      reads this
    {
      |sessions| <= BUFFER_MAX_SESSIONS && |connServers| <= BUFFER_MAX_BY_KEY && |users| <= BUFFER_MAX_BY_KEY
    }

    constructor ()
      ensures Valid() && sessions == [] && connServers == map[] && users == map[]
    {
      sessions, connServers, users := [], map[], map[];
    }

    method PushSession(s: Session)
      requires Valid()
      modifies this`sessions
      ensures Valid() && sessions == PushBounded(old(sessions), s)
      ensures sessions == if |old(sessions)| < 500 then old(sessions) + [s] else old(sessions)[1..] + [s]
    {
      if |sessions| >= BUFFER_MAX_SESSIONS {
        sessions := sessions[1..];
      }
      sessions := sessions + [s];
    }

    method PutConnServer(key: string, e: Entry)
      requires Valid()
      modifies this`connServers
      ensures Valid() && PutMayEvict(old(connServers), key, e, connServers)
    {
      connServers := PutByKey(connServers, key, e);
    }

    method PutUser(key: string, e: Entry)
      requires Valid()
      modifies this`users
      ensures Valid() && PutMayEvict(old(users), key, e, users)
    {
      users := PutByKey(users, key, e);
    }

    method TakeAll() returns (s: seq<Session>, c: map<string, Entry>, u: map<string, Entry>)
      requires Valid()
      modifies this
      ensures Valid() && sessions == [] && connServers == map[] && users == map[]
      ensures (s, c, u) == (old(sessions), old(connServers), old(users))
    {
      s, c, u := sessions, connServers, users;
      sessions, connServers, users := [], map[], map[];
    }

    method ReAddSessions(chunk: seq<Session>)
      requires Valid()
      modifies this`sessions
      ensures Valid() && sessions == ReAdd(old(sessions), chunk)
    {
      for i := 0 to |chunk|
        invariant |sessions| <= BUFFER_MAX_SESSIONS
        invariant ReAdd(sessions, chunk[i..]) == ReAdd(old(sessions), chunk)
      {
        if |sessions| < BUFFER_MAX_SESSIONS {
          sessions := sessions + [chunk[i]];
        }
        assert chunk[i..][1..] == chunk[i + 1..];
      }
    }

    method ReAddConnServers(chunk: seq<(string, Entry)>)
      requires Valid()
      modifies this`connServers
      ensures Valid() && connServers == PutBack(old(connServers), chunk)
    {
      connServers := PutBackAll(connServers, chunk);
    }

    method ReAddUsers(chunk: seq<(string, Entry)>)
      requires Valid()
      modifies this`users
      ensures Valid() && users == PutBack(old(users), chunk)
    {
      users := PutBackAll(users, chunk);
    }
  }

  /** Failed entries go back where there is room or their key is there again. */
  function PutBack(m: map<string, Entry>, chunk: seq<(string, Entry)>): map<string, Entry>
    decreases |chunk|
  {
    if chunk == [] then m
    else
      var (k, e) := chunk[0];
      PutBack(if |m| < BUFFER_MAX_BY_KEY || k in m then m[k := e] else m, chunk[1..])
  }

  method PutBackAll(m: map<string, Entry>, chunk: seq<(string, Entry)>) returns (r: map<string, Entry>)
    requires |m| <= BUFFER_MAX_BY_KEY
    ensures |r| <= BUFFER_MAX_BY_KEY && r == PutBack(m, chunk)
  {
    r := m;
    for i := 0 to |chunk|
      invariant |r| <= BUFFER_MAX_BY_KEY
      invariant PutBack(r, chunk[i..]) == PutBack(m, chunk)
    {
      var (k, e) := chunk[i];
      assert chunk[i..][1..] == chunk[i + 1..];
      if |r| < BUFFER_MAX_BY_KEY || k in r {
        PutSize(r, k, e);
        r := r[k := e];
      }
    }
  }

  ghost predicate DistinctKeys(chunk: seq<(string, Entry)>) {
    forall i, j :: 0 <= i < j < |chunk| ==> chunk[i].0 != chunk[j].0
  }

  /** No key leaves the buffer; a key that was enqueued again meanwhile gets the older,
      failed entry back; with room for all of them none is lost. */
  lemma {:induction false} PutBackOverwrites(m: map<string, Entry>, chunk: seq<(string, Entry)>)
    requires DistinctKeys(chunk)
    ensures forall k :: k in m ==> k in PutBack(m, chunk)
    ensures forall k :: k in m && (forall i :: 0 <= i < |chunk| ==> chunk[i].0 != k) ==> PutBack(m, chunk)[k] == m[k]
    ensures forall i :: 0 <= i < |chunk| && (chunk[i].0 in m || |m| + |chunk| <= BUFFER_MAX_BY_KEY) ==>
              chunk[i].0 in PutBack(m, chunk) && PutBack(m, chunk)[chunk[i].0] == chunk[i].1
    ensures forall k :: k in PutBack(m, chunk) && k !in m ==>
              exists i :: 0 <= i < |chunk| && chunk[i] == (k, PutBack(m, chunk)[k])
    decreases |chunk|
  {
    if chunk != [] {
      var (k, e) := chunk[0];
      var rest := chunk[1..];
      var next := if |m| < BUFFER_MAX_BY_KEY || k in m then m[k := e] else m;
      PutSize(m, k, e);
      PutBackOverwrites(next, rest);
      assert forall i :: 0 <= i < |rest| ==> rest[i] == chunk[i + 1] && rest[i].0 != k;
      assert forall i :: 0 < i < |chunk| ==> chunk[i] == rest[i - 1];
    }
  }

  /** An entry that does not come back meets a full buffer. */
  lemma {:induction false} PutBackFills(m: map<string, Entry>, chunk: seq<(string, Entry)>)
    ensures |m| <= |PutBack(m, chunk)| && m.Keys <= PutBack(m, chunk).Keys
    ensures forall i :: 0 <= i < |chunk| && chunk[i].0 !in PutBack(m, chunk) ==> 200 <= |PutBack(m, chunk)|
    decreases |chunk|
  {
    if chunk != [] {
      var (k, e) := chunk[0];
      PutSize(m, k, e);
      PutBackFills(if |m| < BUFFER_MAX_BY_KEY || k in m then m[k := e] else m, chunk[1..]);
      assert forall i :: 0 < i < |chunk| ==> chunk[i] == chunk[1..][i - 1];
    }
  }

  /** The entry is stored; a full buffer without that key loses one other entry. */
  ghost predicate PutMayEvict(m: map<string, Entry>, key: string, e: Entry, m': map<string, Entry>) {
    if key in m || |m| < BUFFER_MAX_BY_KEY then m' == m[key := e]
    else exists victim :: victim in m && victim != key && m' == (m - {victim})[key := e]
  }

  method PutByKey(m: map<string, Entry>, key: string, e: Entry) returns (r: map<string, Entry>)
    requires |m| <= BUFFER_MAX_BY_KEY
    ensures |r| <= BUFFER_MAX_BY_KEY && PutMayEvict(m, key, e, r)
  {
    var kept := m;
    if key !in m && |m| >= BUFFER_MAX_BY_KEY {
      SomeKey(m);
      var victim :| victim in m;
      kept := m - {victim};
      assert kept.Keys == m.Keys - {victim};
    }
    PutSize(kept, key, e);
    r := kept[key := e];
  }

  lemma SomeKey(m: map<string, Entry>)
    requires |m| > 0
    ensures exists k :: k in m
  {
  }

  lemma PutSize(m: map<string, Entry>, key: string, e: Entry)
    ensures |m[key := e]| == if key in m then |m| else |m| + 1
  {
  }

  // ------------------------------------------------------------ the queue of sessions

  /** `pending` are enqueues that failed on KeyDB and wait for the buffer; `taken` is the
      part of a flush not sent yet, `failed` a chunk on its way back; `working` are the
      sessions that retry workers have read, `removing` those whose key they will remove.
      `enqueued`, `inserted` and `dropped` are history. */
  datatype Queue = Queue(
    buffer: seq<Session>, pending: seq<Session>, taken: seq<Session>, failed: seq<Session>,
    keydb: map<int, Session>, working: set<Session>, removing: set<Session>,
    enqueued: set<Session>, inserted: set<Session>, dropped: set<Session>)

  const EMPTY := Queue([], [], [], [], map[], {}, {}, {}, {}, {})

  datatype Event =
    | Enqueue(s: Session, fate: Fate)
    | Buffer(at: nat)
    | Take
    | Flush(fate: Fate, sent: nat)
    | GiveBack
    | Read(id: int)
    | Insert(s: Session, ok: bool)
    | Remove(s: Session, ok: bool)

  function Chunk(taken: seq<Session>): seq<Session> {
    if |taken| <= FLUSH_BATCH_SIZE then taken else taken[..FLUSH_BATCH_SIZE]
  }

  function Store(db: map<int, Session>, chunk: seq<Session>): map<int, Session> {
    if chunk == [] then db
    else
      var n := |chunk| - 1;
      Store(db, chunk[..n])[chunk[n].id := chunk[n]]
  }

  predicate Enabled(q: Queue, e: Event) {
    match e
    case Enqueue(_, _) => true
    case Buffer(i) => i < |q.pending|
    case Take => q.taken == [] && q.failed == []
    case Flush(_, sent) => q.taken != [] && q.failed == [] && sent <= |Chunk(q.taken)|
    case GiveBack => q.failed != []
    case Read(id) => id in q.keydb
    case Insert(s, _) => s in q.working
    case Remove(s, _) => s in q.removing
  }

  /** A flush that fails may have stored the first `sent` sessions of its chunk. */
  function Next(q: Queue, e: Event): Queue
    requires Enabled(q, e)
  {
    match e
    case Enqueue(s, fate) =>
      q.(enqueued := q.enqueued + {s},
         keydb := if fate.Refused? then q.keydb else q.keydb[s.id := s],
         pending := if fate.Done? then q.pending else q.pending + [s])
    case Buffer(i) =>
      q.(pending := q.pending[..i] + q.pending[i + 1..],
         buffer := PushBounded(q.buffer, q.pending[i]),
         dropped := if |q.buffer| >= BUFFER_MAX_SESSIONS then q.dropped + {q.buffer[0]} else q.dropped)
    case Take => q.(taken := q.buffer, buffer := [])
    case Flush(fate, sent) =>
      var chunk := Chunk(q.taken);
      q.(taken := q.taken[|chunk|..],
         keydb := Store(q.keydb, match fate case Done => chunk case LostReply => chunk[..sent] case Refused => []),
         failed := if fate.Done? then [] else chunk)
    case GiveBack =>
      var buffer := ReAdd(q.buffer, q.failed);
      q.(buffer := buffer, failed := [], dropped := q.dropped + (SetOf(q.failed) - SetOf(buffer)))
    case Read(id) => q.(working := q.working + {q.keydb[id]})
    case Insert(s, ok) =>
      var q' := q.(working := q.working - {s});
      if ok then q'.(inserted := q.inserted + {s}, removing := q.removing + {s}) else q'
    case Remove(s, ok) =>
      q.(removing := q.removing - {s}, keydb := if ok then q.keydb - {s.id} else q.keydb)
  }

  /** Somewhere on its way, in the database, or dropped. */
  ghost predicate Safe(q: Queue, s: Session) {
    (s.id in q.keydb && q.keydb[s.id] == s)
    || s in q.buffer || s in q.pending || s in q.taken || s in q.failed
    || s in q.inserted || s in q.dropped
  }

  ghost predicate DistinctIds(ss: set<Session>) {
    forall s, t :: s in ss && t in ss && s.id == t.id ==> s == t
  }

  /** Every session anywhere was enqueued, and what is removed was inserted. */
  ghost predicate Known(q: Queue) {
    && (forall s :: s in q.buffer || s in q.pending || s in q.taken || s in q.failed ==> s in q.enqueued)
    && (forall id :: id in q.keydb ==> q.keydb[id].id == id && q.keydb[id] in q.enqueued)
    && q.working <= q.enqueued && q.removing <= q.inserted <= q.enqueued && q.dropped <= q.enqueued
  }

  ghost predicate Inv(q: Queue) {
    Known(q) && |q.buffer| <= BUFFER_MAX_SESSIONS && forall s :: s in q.enqueued ==> Safe(q, s)
  }

  /** With distinct ids no write replaces another session. */
  lemma StoreKeeps(db: map<int, Session>, chunk: seq<Session>, all: set<Session>)
    requires DistinctIds(all) && forall s :: s in chunk ==> s in all
    requires forall id :: id in db ==> db[id].id == id && db[id] in all
    ensures forall id :: id in Store(db, chunk) ==> Store(db, chunk)[id].id == id && Store(db, chunk)[id] in all
    ensures forall s :: s in all && ((s.id in db && db[s.id] == s) || s in chunk) ==>
              s.id in Store(db, chunk) && Store(db, chunk)[s.id] == s
  {
  }

  lemma EnqueueKeepsInv(q: Queue, s: Session, fate: Fate)
    requires Inv(q) && DistinctIds(q.enqueued + {s})
    ensures Inv(Next(q, Enqueue(s, fate)))
  {
  }

  lemma BufferKeepsInv(q: Queue, i: nat)
    requires Inv(q) && Enabled(q, Buffer(i))
    ensures Inv(Next(q, Buffer(i)))
  {
  }

  lemma FlushKeepsInv(q: Queue, fate: Fate, sent: nat)
    requires Inv(q) && DistinctIds(q.enqueued) && Enabled(q, Flush(fate, sent))
    ensures Inv(Next(q, Flush(fate, sent)))
  {
    var q' := Next(q, Flush(fate, sent));
    var chunk := Chunk(q.taken);
    var stored := match fate case Done => chunk case LostReply => chunk[..sent] case Refused => [];
    assert q.taken == chunk + q.taken[|chunk|..];
    assert forall s :: s in stored ==> s in chunk;
    StoreKeeps(q.keydb, stored, q.enqueued);
    forall t | t in q'.enqueued ensures Safe(q', t) {
      assert Safe(q, t);
    }
  }

  lemma GiveBackKeepsInv(q: Queue)
    requires Inv(q) && Enabled(q, GiveBack)
    ensures Inv(Next(q, GiveBack))
  {
    var q' := Next(q, GiveBack);
    ReAddFills(q.buffer, q.failed);
    var room := BUFFER_MAX_SESSIONS - |q.buffer|;
    assert forall s :: |q.failed| > room && s in q.failed[..room] ==> s in q.failed;
    forall t | t in q'.enqueued ensures Safe(q', t) {
      assert Safe(q, t);
    }
  }

  lemma RetryKeepsInv(q: Queue, e: Event)
    requires Inv(q) && DistinctIds(q.enqueued) && Enabled(q, e)
    requires e.Take? || e.Read? || e.Insert? || e.Remove?
    ensures Inv(Next(q, e))
  {
  }

  ghost predicate IsRun(states: seq<Queue>, events: seq<Event>) {
    && |states| == |events| + 1 && states[0] == EMPTY
    && forall i :: 0 <= i < |events| ==> Enabled(states[i], events[i]) && states[i + 1] == Next(states[i], events[i])
  }

  lemma EnqueuedGrows(q: Queue, e: Event)
    requires Enabled(q, e)
    ensures q.enqueued <= Next(q, e).enqueued
  {
  }

  /** Under any interleaving of enqueues, flushes and retries, with distinct session ids:
      every enqueued session is in KeyDB, in the buffer or on its way there, in a flush,
      in the database, or was dropped -- and the buffer never holds more than its bound. */
  lemma {:induction false} NoSessionLost(states: seq<Queue>, events: seq<Event>, n: nat)
    requires IsRun(states, events) && n <= |events| && DistinctIds(states[n].enqueued)
    ensures Inv(states[n])
    decreases n
  {
    if n > 0 {
      var q, e := states[n - 1], events[n - 1];
      assert states[n - 1 + 1] == Next(q, e);
      EnqueuedGrows(q, e);
      NoSessionLost(states, events, n - 1);
      match e
      case Enqueue(s, fate) => EnqueueKeepsInv(q, s, fate);
      case Buffer(i) => BufferKeepsInv(q, i);
      case Flush(fate, sent) => FlushKeepsInv(q, fate, sent);
      case GiveBack => GiveBackKeepsInv(q);
      case _ => RetryKeepsInv(q, e);
    }
  }

  /** A session is dropped only by a buffer that is full at that moment, either the
      oldest one to make room or one that comes back from a failed flush. */
  lemma DropsOnlyWhenFull(q: Queue, e: Event, s: Session)
    requires Inv(q) && Enabled(q, e) && s in Next(q, e).dropped && s !in q.dropped
    ensures |Next(q, e).buffer| == BUFFER_MAX_SESSIONS
    ensures (e.Buffer? && s == q.buffer[0]) || (e.GiveBack? && s in q.failed && s !in Next(q, e).buffer)
  {
    if e.GiveBack? {
      ReAddFills(q.buffer, q.failed);
    }
  }

  /** Flushes until nothing of what was taken is left, with KeyDB answering. */
  function Flushes(q: Queue): (q': Queue)
    requires q.failed == []
    decreases |q.taken|
  {
    if q.taken == [] then q else Flushes(Next(q, Flush(Done, |Chunk(q.taken)|)))
  }

  function FlushCount(q: Queue): nat
    requires q.failed == []
    decreases |q.taken|
  {
    if q.taken == [] then 0 else 1 + FlushCount(Next(q, Flush(Done, |Chunk(q.taken)|)))
  }

  lemma StoreHolds(db: map<int, Session>, chunk: seq<Session>)
    requires DistinctIds(SetOf(chunk))
    ensures forall s :: s in chunk ==> s.id in Store(db, chunk) && Store(db, chunk)[s.id] == s
    ensures forall id :: id in db && (forall s :: s in chunk ==> s.id != id) ==>
              id in Store(db, chunk) && Store(db, chunk)[id] == db[id]
    decreases |chunk|
  {
    if chunk != [] {
      var n := |chunk| - 1;
      assert forall s :: s in chunk[..n] ==> s in chunk;
      assert forall s :: s in chunk ==> s in chunk[..n] || s == chunk[n];
      StoreHolds(db, chunk[..n]);
    }
  }

  lemma FlushStores(q: Queue)
    requires q.failed == [] && q.taken != [] && DistinctIds(SetOf(q.taken))
    ensures var chunk := Chunk(q.taken);
            var q1 := Next(q, Flush(Done, |chunk|));
            && q.taken == chunk + q1.taken && q1.failed == [] && DistinctIds(SetOf(q1.taken))
            && |q1.taken| == (if |q.taken| <= 50 then 0 else |q.taken| - 50)
            && (forall s :: s in chunk ==> s.id in q1.keydb && q1.keydb[s.id] == s)
            && forall id :: id in q.keydb && (forall s :: s in chunk ==> s.id != id) ==>
                 id in q1.keydb && q1.keydb[id] == q.keydb[id]
  {
    var chunk := Chunk(q.taken);
    var rest := q.taken[|chunk|..];
    assert q.taken == chunk + rest;
    assert forall s :: s in rest ==> s in q.taken;
    assert forall s :: s in chunk ==> s in q.taken;
    StoreHolds(q.keydb, chunk);
  }

  lemma {:induction false} FlushesCounted(q: Queue)
    requires q.failed == [] && DistinctIds(SetOf(q.taken))
    ensures Flushes(q).taken == [] && FlushCount(q) == (|q.taken| + 49) / 50
    decreases |q.taken|
  {
    if q.taken != [] {
      FlushStores(q);
      FlushesCounted(Next(q, Flush(Done, |Chunk(q.taken)|)));
    }
  }

  /** While KeyDB answers, one flush per 50 sessions brings everything that was taken from
      the buffer into KeyDB and leaves the other keys there alone. */
  lemma {:induction false} FlushesStoreAll(q: Queue)
    requires q.failed == [] && DistinctIds(SetOf(q.taken))
    ensures Flushes(q).taken == [] && FlushCount(q) == (|q.taken| + 49) / 50
    ensures forall s :: s in q.taken ==> s.id in Flushes(q).keydb && Flushes(q).keydb[s.id] == s
    ensures forall id :: id in q.keydb && (forall s :: s in q.taken ==> s.id != id) ==>
              id in Flushes(q).keydb && Flushes(q).keydb[id] == q.keydb[id]
    decreases |q.taken|
  {
    FlushesCounted(q);
    if q.taken != [] {
      var chunk := Chunk(q.taken);
      var q1 := Next(q, Flush(Done, |chunk|));
      FlushStores(q);
      FlushesStoreAll(q1);
      assert forall s :: s in q.taken <==> s in chunk || s in q1.taken;
      forall s | s in chunk && s !in q1.taken ensures Flushes(q1).keydb[s.id] == s {
        assert s in q.taken;
        assert forall t :: t in q1.taken && t.id == s.id ==> t == s;
      }
    }
  }

  /** So a flush of the whole buffer empties it into KeyDB. */
  lemma BufferReachesKeyDB(q: Queue)
    requires q.taken == [] && q.failed == [] && DistinctIds(SetOf(q.buffer))
    ensures var q' := Flushes(Next(q, Take));
            && Next(q, Take).buffer == [] && q'.taken == []
            && forall s :: s in q.buffer ==> s.id in q'.keydb && q'.keydb[s.id] == s
  {
    FlushesStoreAll(Next(q, Take));
  }

  /** A session that a worker reads, inserts and removes is in the database and no longer in
      KeyDB. */
  lemma RetrySucceeds(q: Queue, id: int)
    requires Inv(q) && id in q.keydb
    ensures var s := q.keydb[id];
            var q' := Next(Next(Next(q, Read(id)), Insert(s, true)), Remove(s, true));
            s in q'.inserted && q'.keydb == q.keydb - {id}
  {
  }

  /** Distinct ids are needed: a second session with the same id replaces the first,
      which is then nowhere. */
  lemma SameIdReplaces(q: Queue, s: Session, t: Session)
    requires Inv(q) && s.id == t.id && s != t && s !in q.enqueued
    ensures var q' := Next(Next(q, Enqueue(s, Done)), Enqueue(t, Done));
            s in q'.enqueued && !Safe(q', s)
  {
  }
}
