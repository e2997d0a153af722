/** Which overlaps of two calls on one key leave the two levels apart, and runs that show it. */
module CacheOverlaps {
  import opened Options
  import opened CacheReload
  import opened Collections
  import opened CacheInterleaving

  /** One step of the call, if it has not returned. */
  function Try(s: State, c: nat): State {
    if c in s.tasks && !s.tasks[c].Listing? then Next(s, Step(c)) else s
  }

  /** The key is coherent after the named calls took one step each, in this order. */
  predicate CoherentAfter(s: State, a: nat, b: nat, c: nat, d: nat, k: string) {
    Coherent1(At(Try(Try(Try(Try(s, a), b), c), d), k))
  }

  /** The call is about to write the key, in process first. */
  predicate AboutToWrite(s: State, c: nat, k: string, v: Option<string>) {
    c in s.tasks && s.tasks[c] == Writing(k, v)
  }

  predicate AboutToFinish(s: State, c: nat, k: string, v: Option<string>) {
    c in s.tasks && s.tasks[c] == Finishing(k, v)
  }

  /** The call looked in process in vain and is about to read KeyDB. */
  predicate AboutToRead(s: State, c: nat, k: string) {
    c in s.tasks && s.tasks[c] == Reading(k)
  }

  /** The call has read KeyDB and is about to fill in process; it has returned if there was
      nothing to read. */
  predicate HasRead(s: State, c: nat, k: string, read: Option<string>) {
    if read == None then c !in s.tasks
    else c in s.tasks && s.tasks[c].Filling? && s.tasks[c].key == k && s.tasks[c].read == read.value
  }

  /** Both values of a key. */
  predicate Holds(s: State, k: string, held: Option<string>, stored: Option<string>) {
    var cell := At(s, k);
    cell.stored == stored && held == if cell.held.Some? then Some(cell.held.value.value) else None
  }

  ghost predicate OthersWait(s: State, s': State, c: nat) {
    forall d :: d != c ==> (d in s'.tasks <==> d in s.tasks) && (d in s.tasks ==> s'.tasks[d] == s.tasks[d])
  }

  lemma WriteStep(s: State, c: nat, k: string, v: Option<string>, held: Option<string>, stored: Option<string>)
    requires AboutToWrite(s, c, k, v) && Holds(s, k, held, stored)
    ensures var s' := Try(s, c); AboutToFinish(s', c, k, v) && Holds(s', k, v, stored) && OthersWait(s, s', c)
  {
  }

  lemma FinishStep(s: State, c: nat, k: string, v: Option<string>, held: Option<string>, stored: Option<string>)
    requires AboutToFinish(s, c, k, v) && Holds(s, k, held, stored)
    ensures var s' := Try(s, c); Holds(s', k, held, v) && OthersWait(s, s', c)
  {
  }

  lemma ReadStep(s: State, c: nat, k: string, held: Option<string>, stored: Option<string>)
    requires AboutToRead(s, c, k) && Holds(s, k, held, stored)
    ensures var s' := Try(s, c); HasRead(s', c, k, stored) && Holds(s', k, held, stored) && OthersWait(s, s', c)
  {
  }

  lemma FillStep(s: State, c: nat, k: string, read: Option<string>, held: Option<string>, stored: Option<string>)
    requires HasRead(s, c, k, read) && Holds(s, k, held, stored)
    ensures var s' := Try(s, c); Holds(s', k, if read.Some? then read else held, stored) && OthersWait(s, s', c)
  {
  }

  // ------------------------------------------------------------ two writes

  predicate TwoWrites(s: State, a: nat, b: nat, k: string, va: Option<string>, vb: Option<string>,
                      held: Option<string>, stored: Option<string>) {
    a != b && AboutToWrite(s, a, k, va) && AboutToWrite(s, b, k, vb) && Holds(s, k, held, stored)
  }

  lemma WritesApart(s: State, a: nat, b: nat, k: string, va: Option<string>, vb: Option<string>,
                    held: Option<string>, stored: Option<string>)
    requires TwoWrites(s, a, b, k, va, vb, held, stored)
    ensures CoherentAfter(s, a, a, b, b, k)
  {
    WriteStep(s, a, k, va, held, stored);
    var s1 := Try(s, a);
    FinishStep(s1, a, k, va, va, stored);
    var s2 := Try(s1, a);
    WriteStep(s2, b, k, vb, va, va);
    FinishStep(Try(s2, b), b, k, vb, vb, va);
  }

  lemma WritesInOrder(s: State, a: nat, b: nat, k: string, va: Option<string>, vb: Option<string>,
                      held: Option<string>, stored: Option<string>)
    requires TwoWrites(s, a, b, k, va, vb, held, stored)
    ensures CoherentAfter(s, a, b, a, b, k)
  {
    WriteStep(s, a, k, va, held, stored);
    var s1 := Try(s, a);
    WriteStep(s1, b, k, vb, va, stored);
    var s2 := Try(s1, b);
    FinishStep(s2, a, k, va, vb, stored);
    FinishStep(Try(s2, a), b, k, vb, vb, va);
  }

  lemma WriteInsideWrite(s: State, a: nat, b: nat, k: string, va: Option<string>, vb: Option<string>,
                         held: Option<string>, stored: Option<string>)
    requires TwoWrites(s, a, b, k, va, vb, held, stored)
    ensures CoherentAfter(s, a, b, b, a, k) <==> vb == None || va == vb
  {
    WriteStep(s, a, k, va, held, stored);
    var s1 := Try(s, a);
    WriteStep(s1, b, k, vb, va, stored);
    var s2 := Try(s1, b);
    FinishStep(s2, b, k, vb, vb, stored);
    FinishStep(Try(s2, b), a, k, va, vb, vb);
  }

  /** Two writes that overlap in order are harmless; when one runs inside the other the
      levels part, unless the inner one is a removal or both write the same. */
  lemma OverlappingWrites(s: State, a: nat, b: nat, k: string, va: Option<string>, vb: Option<string>)
    requires a != b && AboutToWrite(s, a, k, va) && AboutToWrite(s, b, k, vb)
    ensures CoherentAfter(s, a, a, b, b, k) && CoherentAfter(s, a, b, a, b, k)
    ensures CoherentAfter(s, a, b, b, a, k) <==> vb == None || va == vb
  {
    var cell := At(s, k);
    var held := if cell.held.Some? then Some(cell.held.value.value) else None;
    WritesApart(s, a, b, k, va, vb, held, cell.stored);
    WritesInOrder(s, a, b, k, va, vb, held, cell.stored);
    WriteInsideWrite(s, a, b, k, va, vb, held, cell.stored);
  }

  // ------------------------------------------------------------ a lookup and a write

  predicate LookupAndWrite(s: State, g: nat, a: nat, k: string, va: Option<string>,
                           held: Option<string>, stored: Option<string>) {
    g != a && AboutToRead(s, g, k) && AboutToWrite(s, a, k, va) && Holds(s, k, held, stored)
  }

  /** Nothing that the lookup could fill with differs from what the write leaves. */
  predicate NothingOld(stored: Option<string>, va: Option<string>) {
    stored == None || va == stored
  }

  lemma LookupFirst(s: State, g: nat, a: nat, k: string, va: Option<string>,
                    held: Option<string>, stored: Option<string>)
    requires LookupAndWrite(s, g, a, k, va, held, stored)
    ensures CoherentAfter(s, g, g, a, a, k)
  {
    ReadStep(s, g, k, held, stored);
    var s1 := Try(s, g);
    FillStep(s1, g, k, stored, held, stored);
    var s2, now := Try(s1, g), if stored.Some? then stored else held;
    WriteStep(s2, a, k, va, now, stored);
    FinishStep(Try(s2, a), a, k, va, va, stored);
  }

  lemma LookupBeginsFirst(s: State, g: nat, a: nat, k: string, va: Option<string>,
                          held: Option<string>, stored: Option<string>)
    requires LookupAndWrite(s, g, a, k, va, held, stored)
    ensures CoherentAfter(s, g, a, g, a, k) <==> NothingOld(stored, va)
  {
    ReadStep(s, g, k, held, stored);
    var s1 := Try(s, g);
    WriteStep(s1, a, k, va, held, stored);
    var s2 := Try(s1, a);
    FillStep(s2, g, k, stored, va, stored);
    FinishStep(Try(s2, g), a, k, va, if stored.Some? then stored else va, stored);
  }

  lemma WriteInsideLookup(s: State, g: nat, a: nat, k: string, va: Option<string>,
                          held: Option<string>, stored: Option<string>)
    requires LookupAndWrite(s, g, a, k, va, held, stored)
    ensures CoherentAfter(s, g, a, a, g, k) <==> NothingOld(stored, va)
  {
    ReadStep(s, g, k, held, stored);
    var s1 := Try(s, g);
    WriteStep(s1, a, k, va, held, stored);
    var s2 := Try(s1, a);
    FinishStep(s2, a, k, va, va, stored);
    FillStep(Try(s2, a), g, k, stored, va, va);
  }

  lemma LookupInsideWrite(s: State, g: nat, a: nat, k: string, va: Option<string>,
                          held: Option<string>, stored: Option<string>)
    requires LookupAndWrite(s, g, a, k, va, held, stored)
    ensures CoherentAfter(s, a, g, g, a, k) <==> NothingOld(stored, va)
  {
    WriteStep(s, a, k, va, held, stored);
    var s1 := Try(s, a);
    ReadStep(s1, g, k, va, stored);
    var s2 := Try(s1, g);
    FillStep(s2, g, k, stored, va, stored);
    FinishStep(Try(s2, g), a, k, va, if stored.Some? then stored else va, stored);
  }

  lemma WriteBeginsFirst(s: State, g: nat, a: nat, k: string, va: Option<string>,
                         held: Option<string>, stored: Option<string>)
    requires LookupAndWrite(s, g, a, k, va, held, stored)
    ensures CoherentAfter(s, a, g, a, g, k) <==> NothingOld(stored, va)
  {
    WriteStep(s, a, k, va, held, stored);
    var s1 := Try(s, a);
    ReadStep(s1, g, k, va, stored);
    var s2 := Try(s1, g);
    FinishStep(s2, a, k, va, va, stored);
    FillStep(Try(s2, a), g, k, stored, va, va);
  }

  lemma WriteFirst(s: State, g: nat, a: nat, k: string, va: Option<string>,
                   held: Option<string>, stored: Option<string>)
    requires LookupAndWrite(s, g, a, k, va, held, stored)
    ensures CoherentAfter(s, a, a, g, g, k)
  {
    WriteStep(s, a, k, va, held, stored);
    var s1 := Try(s, a);
    FinishStep(s1, a, k, va, va, stored);
    var s2 := Try(s1, a);
    ReadStep(s2, g, k, va, va);
    FillStep(Try(s2, g), g, k, va, va, va);
  }

  /** A lookup that is done before the write, or begins after it, is harmless; however the
      two overlap, the levels part if and only if KeyDB held something else than what is
      written. */
  lemma LookupAcrossWrite(s: State, g: nat, a: nat, k: string, va: Option<string>)
    requires g != a && AboutToRead(s, g, k) && AboutToWrite(s, a, k, va)
    ensures CoherentAfter(s, g, g, a, a, k) && CoherentAfter(s, a, a, g, g, k)
    ensures var harmless := NothingOld(At(s, k).stored, va);
            && (CoherentAfter(s, g, a, g, a, k) <==> harmless)
            && (CoherentAfter(s, g, a, a, g, k) <==> harmless)
            && (CoherentAfter(s, a, g, g, a, k) <==> harmless)
            && (CoherentAfter(s, a, g, a, g, k) <==> harmless)
  {
    var cell := At(s, k);
    var held, stored := if cell.held.Some? then Some(cell.held.value.value) else None, cell.stored;
    LookupFirst(s, g, a, k, va, held, stored);
    WriteFirst(s, g, a, k, va, held, stored);
    LookupBeginsFirst(s, g, a, k, va, held, stored);
    WriteInsideLookup(s, g, a, k, va, held, stored);
    LookupInsideWrite(s, g, a, k, va, held, stored);
    WriteBeginsFirst(s, g, a, k, va, held, stored);
  }

  // ------------------------------------------------------------ runs that leave a key apart

  /** A run from the given KeyDB ends in this state. */
  ghost predicate Reachable(s: State, keydb: Store) {
    exists states, events :: IsRun(states, events, keydb) && states[|events|] == s
  }

  lemma ReachFirst(keydb: Store)
    ensures Reachable(Initial(keydb), keydb)
  {
    assert IsRun([Initial(keydb)], [], keydb);
  }

  lemma Extended(states: seq<State>, events: seq<Event>, keydb: Store, e: Event)
    requires IsRun(states, events, keydb) && Enabled(states[|events|], e)
    ensures IsRun(states + [Next(states[|events|], e)], events + [e], keydb)
  {
    var states', events' := states + [Next(states[|events|], e)], events + [e];
    forall i | 0 <= i < |events'| ensures StepAt(states', events', i) {
      assert i < |events| ==> StepAt(states, events, i);
    }
  }

  lemma ReachNext(s: State, e: Event, keydb: Store)
    requires Reachable(s, keydb) && Enabled(s, e)
    ensures Reachable(Next(s, e), keydb)
  {
    var states, events :| IsRun(states, events, keydb) && states[|events|] == s;
    Extended(states, events, keydb, e);
    var states', events' := states + [Next(s, e)], events + [e];
    assert states'[|events'|] == Next(s, e);
  }

  /** A reachable state in which no call is in the middle of the key, and the levels differ. */
  ghost predicate LeftApart(s: State, keydb: Store, k: string) {
    Reachable(s, keydb) && Quiet(s, k) && !Coherent1(At(s, k))
  }

  /** A reload that finds no data is about to list what it removes. */
  lemma AboutToList(db: Store, prefix: string) returns (s: State)
    ensures Reachable(s, db) && s.begun == {1} && s.tasks == map[1 := Listing(prefix, {})]
  {
    var s0 := Initial(db);
    ReachFirst(db);
    ReachNext(s0, Begin(1, Reload(prefix, [])), db);
    var s1 := Next(s0, Begin(1, Reload(prefix, [])));
    assert s1.tasks == map[1 := Installing(prefix, [], 0)];
    ReachNext(s1, Step(1), db);
    s := Next(s1, Step(1));
    assert FromPairs<string, string>([]).Keys == {};
  }

  /** It has picked the one key under its prefix and removed it in process. */
  lemma HalfRemoved(db: Store, prefix: string, k: string) returns (s: State)
    requires Under(db.Keys, prefix) == {k}
    ensures Reachable(s, db)
    ensures s.begun == {1} && s.tasks == map[1 := Invalidating([k], 1)]
  {
    var s0 := AboutToList(db, prefix);
    assert k in Under(db.Keys, prefix);
    ReachNext(s0, Listed(1, [k]), db);
    var s1 := Next(s0, Listed(1, [k]));
    assert s1.tasks == map[1 := Invalidating([k], 0)];
    ReachNext(s1, Step(1), db);
    s := Next(s1, Step(1));
  }

  lemma HalfWritten(s: State, keydb: Store, c: nat, k: string, v: Option<string>) returns (s': State)
    requires Reachable(s, keydb) && 0 < c && c !in s.begun && c !in s.tasks
    ensures Reachable(s', keydb) && s'.tasks == s.tasks[c := Finishing(k, v)] && s'.begun == s.begun + {c}
    ensures At(s', k).held == if v.Some? then Some(Held(v.value, c, c)) else None
  {
    ReachNext(s, Begin(c, Write(k, v)), keydb);
    var s1 := Next(s, Begin(c, Write(k, v)));
    ReachNext(s1, Step(c), keydb);
    s' := Next(s1, Step(c));
  }

  /** A whole write of the key by another call. */
  lemma WrittenMeanwhile(s: State, keydb: Store, c: nat, k: string, v: Option<string>) returns (s': State)
    requires Reachable(s, keydb) && 0 < c && c !in s.begun && c !in s.tasks
    ensures Reachable(s', keydb) && s'.tasks == s.tasks && s'.begun == s.begun + {c}
    ensures At(s', k).stored == v && (At(s', k).held == if v.Some? then Some(Held(v.value, c, c)) else None)
  {
    var s1 := HalfWritten(s, keydb, c, k, v);
    ReachNext(s1, Step(c), keydb);
    s' := Next(s1, Step(c));
    assert s'.tasks == s.tasks;
  }

  /** A value is set between the two halves of a reload's removal of the key: afterwards it
      is in process, and KeyDB does not have it. */
  lemma SetInsideReload(db: Store, prefix: string, k: string, value: string) returns (s: State)
    requires Under(db.Keys, prefix) == {k}
    ensures LeftApart(s, db, k)
    ensures At(s, k).held == Some(Held(value, 2, 2)) && At(s, k).stored == None
  {
    var s4 := HalfRemoved(db, prefix, k);
    var s7 := WrittenMeanwhile(s4, db, 2, k, Some(value));
    ReachNext(s7, Step(1), db);
    s := Next(s7, Step(1));
    assert s.tasks == map[];
  }

  /** The key is removed between the read and the fill of a lookup. */
  lemma RemovedBeforeFill(db: Store, k: string) returns (s: State)
    requires k in db
    ensures LeftApart(s, db, k)
    ensures At(s, k).held == Some(Held(db[k], 1, 0)) && At(s, k).stored == None
  {
    var s0 := Initial(db);
    ReachFirst(db);
    ReachNext(s0, Begin(1, Get(k)), db);
    var s1 := Next(s0, Begin(1, Get(k)));
    ReachNext(s1, Step(1), db);
    var s2 := Next(s1, Step(1));
    assert s2.tasks == map[1 := Reading(k)];
    ReachNext(s2, Step(1), db);
    var s3 := Next(s2, Step(1));
    assert s3.tasks == map[1 := Filling(k, db[k], 0)];
    var s6 := WrittenMeanwhile(s3, db, 2, k, None);
    ReachNext(s6, Step(1), db);
    s := Next(s6, Step(1));
    assert s.tasks == map[];
  }

  /** One set runs inside another: different values stay for good. */
  lemma SetInsideSet(db: Store, k: string, outer: string, inner: string) returns (s: State)
    requires outer != inner
    ensures LeftApart(s, db, k)
    ensures At(s, k).held == Some(Held(inner, 2, 2)) && At(s, k).stored == Some(outer)
  {
    ReachFirst(db);
    var s2 := HalfWritten(Initial(db), db, 1, k, Some(outer));
    var s5 := WrittenMeanwhile(s2, db, 2, k, Some(inner));
    ReachNext(s5, Step(1), db);
    s := Next(s5, Step(1));
    assert s.tasks == map[];
  }

  // ------------------------------------------------------------ a reload by itself

  /** The call takes `n` steps, and no other does. */
  function Tries(s: State, c: nat, n: nat): State {
    if n == 0 then s else Try(Tries(s, c, n - 1), c)
  }

  function InProcess(s: State, k: string): Option<string> {
    var held := At(s, k).held;
    if held.Some? then Some(held.value.value) else None
  }

  function InKeyDB(s: State, k: string): Option<string> {
    At(s, k).stored
  }

  lemma InstallStep(s: State, c: nat, prefix: string, data: seq<(string, string)>, i: nat, k: string)
    requires c in s.tasks && s.tasks[c] == Installing(prefix, data, i) && i < |data|
    ensures var s' := Try(s, c);
            && s'.tasks == s.tasks[c := Installing(prefix, data, i + 1)]
            && InProcess(s', k) == (if k == data[i].0 then Some(data[i].1) else InProcess(s, k))
            && InKeyDB(s', k) == InKeyDB(s, k)
  {
  }

  /** The first `n` pairs are in process, and nothing else has changed. */
  lemma {:induction false} InstallsInProcess(s: State, c: nat, prefix: string, data: seq<(string, string)>,
                                             n: nat, k: string)
    requires c in s.tasks && s.tasks[c] == Installing(prefix, data, 0) && n <= |data|
    ensures var s', put := Tries(s, c, n), FromPairs(data[..n]);
            && s'.tasks == s.tasks[c := Installing(prefix, data, n)]
            && InProcess(s', k) == (if k in put then Some(put[k]) else InProcess(s, k))
            && InKeyDB(s', k) == InKeyDB(s, k)
    decreases n
  {
    if n == 0 {
      assert s.tasks == s.tasks[c := s.tasks[c]];
    } else {
      InstallsInProcess(s, c, prefix, data, n - 1, k);
      InstallStep(Tries(s, c, n - 1), c, prefix, data, n - 1, k);
      InstalledNext(data, n - 1);
    }
  }

  lemma InvalidateStep(s: State, c: nat, todo: seq<string>, i: nat, k: string)
    requires c in s.tasks && s.tasks[c] == Invalidating(todo, i) && i < |todo|
    ensures var s' := Try(s, c);
            && s'.tasks == s.tasks[c := Invalidating(todo, i + 1)]
            && InProcess(s', k) == (if k == todo[i] then None else InProcess(s, k))
            && InKeyDB(s', k) == InKeyDB(s, k)
  {
  }

  /** The first `n` picked keys are gone in process, and nothing else has changed. */
  lemma {:induction false} RemovesInProcess(s: State, c: nat, todo: seq<string>, n: nat, k: string)
    requires c in s.tasks && s.tasks[c] == Invalidating(todo, 0) && n <= |todo|
    ensures var s' := Tries(s, c, n);
            && s'.tasks == s.tasks[c := Invalidating(todo, n)]
            && InProcess(s', k) == (if k in todo[..n] then None else InProcess(s, k))
            && InKeyDB(s', k) == InKeyDB(s, k)
    decreases n
  {
    if n == 0 {
      assert s.tasks == s.tasks[c := s.tasks[c]];
    } else {
      RemovesInProcess(s, c, todo, n - 1, k);
      InvalidateStep(Tries(s, c, n - 1), c, todo, n - 1, k);
      assert todo[..n] == todo[..n - 1] + [todo[n - 1]];
    }
  }

  /** The pipeline after the last pair. */
  lemma PipelineStep(s: State, c: nat, prefix: string, data: seq<(string, string)>, k: string)
    requires c in s.tasks && s.tasks[c] == Installing(prefix, data, |data|)
    ensures var s', put := Try(s, c), FromPairs(data);
            && s'.tasks == s.tasks[c := Listing(prefix, put.Keys)]
            && InProcess(s', k) == InProcess(s, k)
            && InKeyDB(s', k) == (if k in put then Some(put[k]) else InKeyDB(s, k))
  {
    StoredAtKey(s.(clock := s.clock + 1), c, FromPairs(data), {}, k);
  }

  /** The removal after the last invalidation. */
  lemma RemovalStep(s: State, c: nat, todo: seq<string>, k: string)
    requires c in s.tasks && s.tasks[c] == Invalidating(todo, |todo|)
    ensures var s' := Try(s, c);
            && s'.tasks == s.tasks - {c}
            && InProcess(s', k) == InProcess(s, k)
            && InKeyDB(s', k) == (if k in todo then None else InKeyDB(s, k))
  {
    StoredAtKey(s.(clock := s.clock + 1), c, map[], SetOf(todo), k);
  }

  lemma ReloadBegins(s: State, c: nat, prefix: string, data: seq<(string, string)>, k: string)
    requires Enabled(s, Begin(c, Reload(prefix, data)))
    ensures var s' := Next(s, Begin(c, Reload(prefix, data)));
            && s'.tasks == s.tasks[c := Installing(prefix, data, 0)]
            && InProcess(s', k) == InProcess(s, k) && InKeyDB(s', k) == InKeyDB(s, k)
  {
  }

  /** A reload that no other call interrupts, up to its listing: both stores have its data, and
      every other key as before. */
  lemma ReloadInstalls(s: State, c: nat, prefix: string, data: seq<(string, string)>, k: string)
    requires Enabled(s, Begin(c, Reload(prefix, data)))
    ensures var s', put := Tries(Next(s, Begin(c, Reload(prefix, data))), c, |data| + 1), FromPairs(data);
            && s'.tasks == s.tasks[c := Listing(prefix, put.Keys)]
            && InProcess(s', k) == (if k in put then Some(put[k]) else InProcess(s, k))
            && InKeyDB(s', k) == (if k in put then Some(put[k]) else InKeyDB(s, k))
  {
    var s1 := Next(s, Begin(c, Reload(prefix, data)));
    ReloadBegins(s, c, prefix, data, k);
    InstallsInProcess(s1, c, prefix, data, |data|, k);
    assert data[..|data|] == data;
    var s2 := Tries(s1, c, |data|);
    PipelineStep(s2, c, prefix, data, k);
    assert Tries(s1, c, |data| + 1) == Try(s2, c);
  }

  /** And from its listing to its end: the picked keys are gone from both stores. */
  lemma ReloadRemoves(s: State, c: nat, todo: seq<string>, k: string)
    requires Enabled(s, Listed(c, todo))
    ensures var s' := Tries(Next(s, Listed(c, todo)), c, |todo| + 1);
            && s'.tasks == s.tasks - {c}
            && InProcess(s', k) == (if k in todo then None else InProcess(s, k))
            && InKeyDB(s', k) == (if k in todo then None else InKeyDB(s, k))
  {
    var s1 := Next(s, Listed(c, todo));
    if todo == [] {
      assert Tries(s1, c, 1) == Try(Tries(s1, c, 0), c);
    } else {
      RemovesInProcess(s1, c, todo, |todo|, k);
      assert todo[..|todo|] == todo;
      RemovalStep(Tries(s1, c, |todo|), c, todo, k);
    }
  }
}
