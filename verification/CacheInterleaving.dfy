/** The two-level cache shared by any number of tasks: every call is a sequence of single
    store calls, and those of different calls interleave. */
module CacheInterleaving {
  import opened Collections
  import opened Options
  import opened CacheReload

  /** What a call is for; a write of None is a removal. */
  datatype Call =
    | Get(key: string)
    | Write(key: string, value: Option<string>)
    | Reload(prefix: string, data: seq<(string, string)>)

  /** Where a call is, named by the store call that comes next. */
  datatype Pc =
    | Looking(key: string)                            // look in process
    | Reading(key: string)                            // read KeyDB
    | Filling(key: string, read: string, origin: nat) // fill the in-process store with what was read
    | Writing(key: string, value: Option<string>)     // write or invalidate in process
    | Finishing(key: string, value: Option<string>)   // write or remove in KeyDB
    | Installing(prefix: string, data: seq<(string, string)>, done: nat)
    | Listing(prefix: string, newKeys: set<string>)
    | Invalidating(todo: seq<string>, done: nat)

  /** A value in process, the call that put it there and the call it comes from: the same
      one for a write, and for a lookup the one whose value it read in KeyDB. */
  datatype Held = Held(value: string, writer: nat, origin: nat)

  /** One key in both stores.  The rest is history: the call that wrote or removed the key
      in KeyDB last (0 for whoever filled KeyDB before), what each call wrote there, and
      when each call accessed the key in process and in KeyDB. */
  datatype Cell = Cell(held: Option<Held>, stored: Option<string>,
                       lastDb: nat, wrote: map<nat, Option<string>>, mem: map<nat, nat>, db: map<nat, nat>)

  function Untouched(stored: Option<string>): Cell {
    Cell(None, stored, 0, map[0 := stored], map[], map[])
  }

  datatype State = State(cells: map<string, Cell>, tasks: map<nat, Pc>, begun: set<nat>, clock: nat)

  datatype Event =
    | Begin(call: nat, what: Call)
    | Step(call: nat)
    | Listed(call: nat, todo: seq<string>)
    | Expire(key: string)

  function Initial(keydb: Store): State {
    State(map k | k in keydb :: Untouched(Some(keydb[k])), map[], {}, 0)
  }

  function At(s: State, k: string): Cell {
    if k in s.cells then s.cells[k] else Untouched(None)
  }

  /** Old keys under the prefix, up to the bound. */
  ghost predicate MayRemove(prefix: string, newKeys: set<string>, todo: seq<string>) {
    |todo| <= STALE_CAP && forall k :: k in todo ==> prefix <= k && k !in newKeys
  }

  /** The in-process store may drop any key at any time.  The two listings of a reload
      change nothing and only pick what it removes. */
  ghost predicate Enabled(s: State, e: Event) {
    match e
    case Begin(c, _) => 0 < c && c !in s.begun
    case Step(c) => c in s.tasks && !s.tasks[c].Listing?
    case Listed(c, todo) =>
      c in s.tasks && s.tasks[c].Listing? && MayRemove(s.tasks[c].prefix, s.tasks[c].newKeys, todo)
    case Expire(_) => true
  }

  function First(what: Call): Pc {
    match what
    case Get(k) => Looking(k)
    case Write(k, v) => Writing(k, v)
    case Reload(p, data) => Installing(p, data, 0)
  }

  function Goto(s: State, c: nat, pc: Pc): State {
    s.(tasks := s.tasks[c := pc])
  }

  function Return(s: State, c: nat): State {
    s.(tasks := s.tasks - {c})
  }

  /** Call `c` puts a value in process at time `t`, or takes it out. */
  function Put(cell: Cell, c: nat, v: Option<string>, origin: nat, t: nat): Cell {
    cell.(held := if v.Some? then Some(Held(v.value, c, origin)) else None, mem := cell.mem[c := t])
  }

  /** Call `c` writes or removes the key in KeyDB at time `t`. */
  function Stored(cell: Cell, c: nat, v: Option<string>, t: nat): Cell {
    cell.(stored := v, lastDb := c, wrote := cell.wrote[c := v], db := cell.db[c := t])
  }

  function PutAt(s: State, c: nat, k: string, v: Option<string>, origin: nat): State {
    s.(cells := s.cells[k := Put(At(s, k), c, v, origin, s.clock)])
  }

  /** Some keys written and others removed in KeyDB in one go. */
  function StoredAt(s: State, c: nat, added: Store, removed: set<string>): State {
    s.(cells := s.cells + map k | k in added.Keys + removed ::
         Stored(At(s, k), c, if k in added then Some(added[k]) else None, s.clock))
  }

  function Next(s: State, e: Event): State
    requires Enabled(s, e)
  {
    match e
    case Begin(c, what) => Goto(s, c, First(what)).(begun := s.begun + {c})
    case Listed(c, todo) => if todo == [] then Return(s, c) else Goto(s, c, Invalidating(todo, 0))
    case Expire(k) => s.(cells := s.cells[k := At(s, k).(held := None)])
    case Step(c) => NextStep(s.(clock := s.clock + 1), c)
  }

  function NextStep(s: State, c: nat): State
    requires c in s.tasks && !s.tasks[c].Listing?
  {
    match s.tasks[c]
    case Looking(k) => if At(s, k).held.Some? then Return(s, c) else Goto(s, c, Reading(k))
    case Reading(k) =>
      var cell := At(s, k);
      var s' := s.(cells := s.cells[k := cell.(db := cell.db[c := s.clock])]);
      if cell.stored.Some? then Goto(s', c, Filling(k, cell.stored.value, cell.lastDb)) else Return(s', c)
    case Filling(k, v, origin) => Return(PutAt(s, c, k, Some(v), origin), c)
    case Writing(k, v) => Goto(PutAt(s, c, k, v, c), c, Finishing(k, v))
    case Finishing(k, Some(v)) => Return(StoredAt(s, c, map[k := v], {}), c)
    case Finishing(k, None) => Return(StoredAt(s, c, map[], {k}), c)
    case Installing(p, data, i) =>
      if i < |data| then Goto(PutAt(s, c, data[i].0, Some(data[i].1), c), c, Installing(p, data, i + 1))
      else Goto(StoredAt(s, c, FromPairs(data), {}), c, Listing(p, FromPairs(data).Keys))
    case Invalidating(todo, i) =>
      if i < |todo| then Goto(PutAt(s, c, todo[i], None, c), c, Invalidating(todo, i + 1))
      else Return(StoredAt(s, c, map[], SetOf(todo)), c)
  }

  ghost predicate StepAt(states: seq<State>, events: seq<Event>, i: nat)
    requires i < |events| < |states|
  {
    Enabled(states[i], events[i]) && states[i + 1] == Next(states[i], events[i])
  }

  /** A run over a KeyDB that was filled before. */
  ghost predicate IsRun(states: seq<State>, events: seq<Event>, keydb: Store) {
    && |states| == |events| + 1 && states[0] == Initial(keydb)
    && forall i :: 0 <= i < |events| ==> StepAt(states, events, i)
  }

  // ------------------------------------------------------------ calls in the middle of a key

  /** What a call has done to a key in one store and not yet in the other. */
  datatype Role = Neither | Fill(read: string, origin: nat) | Half(value: Option<string>)

  function RoleOf(pc: Pc, k: string): Role {
    match pc
    case Filling(key, v, origin) => if k == key then Fill(v, origin) else Neither
    case Finishing(key, v) => if k == key then Half(v) else Neither
    case Installing(_, data, i) =>
      var put := FromPairs(if i <= |data| then data[..i] else data);
      if k in put then Half(Some(put[k])) else Neither
    case Invalidating(todo, i) => if k in (if i <= |todo| then todo[..i] else todo) then Half(None) else Neither
    case _ => Neither
  }

  function RoleAt(s: State, c: nat, k: string): Role {
    if c in s.tasks then RoleOf(s.tasks[c], k) else Neither
  }

  /** No call is in the middle of the key. */
  ghost predicate Quiet(s: State, k: string) {
    forall c :: RoleAt(s, c, k) == Neither
  }

  /** What is in process is KeyDB's value. */
  predicate Coherent1(cell: Cell) {
    cell.held.Some? ==> cell.stored == Some(cell.held.value.value)
  }

  /** When a call accessed the key, in process and in KeyDB; 0 for not at all. */
  function MemAt(cell: Cell, c: nat): nat {
    if c in cell.mem then cell.mem[c] else 0
  }

  function DbAt(cell: Cell, c: nat): nat {
    if c in cell.db then cell.db[c] else 0
  }

  /** Two calls accessed the two stores in opposite orders: `a` came first in process and
      last in KeyDB. */
  predicate Inverted(cell: Cell, a: nat, b: nat) {
    MemAt(cell, a) < MemAt(cell, b) && DbAt(cell, b) < DbAt(cell, a)
  }

  // ------------------------------------------------------------ the invariant

  ghost predicate TimesOk(cell: Cell, clock: nat) {
    (forall c :: MemAt(cell, c) <= clock) && (forall c :: DbAt(cell, c) <= clock) && 0 !in cell.db
  }

  /** KeyDB holds what its last writer wrote, and only calls that accessed it wrote there. */
  ghost predicate HistoryOk(cell: Cell) {
    && cell.lastDb in cell.wrote && cell.stored == cell.wrote[cell.lastDb]
    && (forall c :: c in cell.wrote ==> c == 0 || c in cell.db)
    && (cell.lastDb == 0 || cell.lastDb in cell.mem)
  }

  /** Whoever put the value in process was the last there. */
  ghost predicate WriterIsLast(cell: Cell) {
    cell.held.Some? ==>
      forall c :: c != cell.held.value.writer ==> MemAt(cell, c) < MemAt(cell, cell.held.value.writer)
  }

  /** Call `c` works with a value that `origin` wrote in KeyDB, and it accessed KeyDB no
      earlier than the last write there if and only if that was the write of `origin`. */
  predicate StemsFrom(cell: Cell, c: nat, v: string, origin: nat) {
    && c in cell.db && origin in cell.wrote && cell.wrote[origin] == Some(v)
    && (DbAt(cell, cell.lastDb) <= DbAt(cell, c) <==> origin == cell.lastDb)
  }

  ghost predicate ValueOk(cell: Cell, role: Role) {
    cell.held.Some? ==>
      var held := cell.held.value;
      role.Half? || StemsFrom(cell, held.writer, held.value, held.origin)
  }

  /** A call in the middle of a key has not written it in KeyDB yet. */
  predicate RoleOk(cell: Cell, c: nat, role: Role) {
    match role
    case Neither => true
    case Fill(v, origin) => StemsFrom(cell, c, v, origin)
    case Half(v) =>
      && c in cell.mem && c !in cell.db
      && (cell.held.Some? && cell.held.value.writer == c ==>
            v == Some(cell.held.value.value) && cell.held.value.origin == c)
  }

  /** The call has yet to access the key in KeyDB, if it does so at all. */
  predicate DbAhead(pc: Pc, k: string) {
    match pc
    case Looking(key) => k == key
    case Reading(key) => k == key
    case Filling(_, _, _) => false
    case Writing(key, _) => k == key
    case Finishing(key, _) => k == key
    case Installing(_, _, _) => true
    case Listing(_, newKeys) => k !in newKeys
    case Invalidating(todo, _) => k in todo
  }

  /** No call accesses a key in KeyDB twice. */
  ghost predicate CallsOk(s: State, k: string) {
    && 0 !in s.begun && s.tasks.Keys <= s.begun && At(s, k).db.Keys <= s.begun
    && forall c :: c in s.tasks && DbAhead(s.tasks[c], k) ==> c !in At(s, k).db
  }

  ghost predicate KeyInv(s: State, k: string) {
    var cell := At(s, k);
    && CallsOk(s, k)
    && TimesOk(cell, s.clock) && HistoryOk(cell) && WriterIsLast(cell)
    && (cell.held.Some? ==> ValueOk(cell, RoleAt(s, cell.held.value.writer, k)))
    && forall c :: RoleOk(cell, c, RoleAt(s, c, k))
  }

  /** All that a step of call `c` can do to a key, and to its own role there. */
  predicate Moves(cell: Cell, role: Role, cell': Cell, role': Role, c: nat, t: nat) {
    || (cell' == cell && role' == role)
    || (role == Neither && c !in cell.db && cell' == cell.(db := cell.db[c := t])
        && role' == if cell.stored.Some? then Fill(cell.stored.value, cell.lastDb) else Neither)
    || (role.Fill? && cell' == Put(cell, c, Some(role.read), role.origin, t) && role' == Neither)
    || (role'.Half? && c !in cell.db && cell' == Put(cell, c, role'.value, c, t))
    || (role.Half? && cell' == Stored(cell, c, role.value, t) && role' == Neither)
  }

  lemma InstalledNext(data: seq<(string, string)>, i: nat)
    requires i < |data|
    ensures FromPairs(data[..i + 1]) == FromPairs(data[..i])[data[i].0 := data[i].1]
  {
    assert data[..i + 1][..i] == data[..i];
  }

  /** The one thing that call `c` does between two states, as seen from one key. */
  predicate Moved(s: State, s': State, c: nat, k: string) {
    Moves(At(s, k), RoleAt(s, c, k), At(s', k), RoleAt(s', c, k), c, s.clock + 1)
  }

  lemma StoredAtKey(s: State, c: nat, added: Store, removed: set<string>, k: string)
    ensures At(StoredAt(s, c, added, removed), k) ==
            if k in added then Stored(At(s, k), c, Some(added[k]), s.clock)
            else if k in removed then Stored(At(s, k), c, None, s.clock)
            else At(s, k)
  {
  }

  lemma InstallMoves(s: State, c: nat, k: string)
    requires Enabled(s, Step(c)) && s.tasks[c].Installing? && CallsOk(s, k)
    requires s.tasks[c].done < |s.tasks[c].data|
    ensures Moved(s, Next(s, Step(c)), c, k)
  {
    InstalledNext(s.tasks[c].data, s.tasks[c].done);
  }

  lemma PipelineMoves(s: State, c: nat, k: string)
    requires Enabled(s, Step(c)) && s.tasks[c].Installing? && CallsOk(s, k)
    requires |s.tasks[c].data| <= s.tasks[c].done
    ensures Moved(s, Next(s, Step(c)), c, k)
  {
    var data := s.tasks[c].data;
    assert data[..|data|] == data;
    StoredAtKey(s.(clock := s.clock + 1), c, FromPairs(data), {}, k);
  }

  lemma InvalidateMoves(s: State, c: nat, k: string)
    requires Enabled(s, Step(c)) && s.tasks[c].Invalidating? && CallsOk(s, k)
    ensures Moved(s, Next(s, Step(c)), c, k)
  {
    var todo, i := s.tasks[c].todo, s.tasks[c].done;
    if i < |todo| {
      assert todo[..i + 1] == todo[..i] + [todo[i]];
    } else {
      assert i == |todo| ==> todo[..i] == todo;
    }
  }

  lemma LookupMoves(s: State, c: nat, k: string)
    requires Enabled(s, Step(c)) && CallsOk(s, k)
    requires s.tasks[c].Looking? || s.tasks[c].Reading? || s.tasks[c].Filling?
    ensures Moved(s, Next(s, Step(c)), c, k)
  {
  }

  lemma WriteMoves(s: State, c: nat, k: string)
    requires Enabled(s, Step(c)) && CallsOk(s, k) && s.tasks[c].Writing?
    ensures Moved(s, Next(s, Step(c)), c, k)
  {
  }

  lemma SetMoves(s: State, c: nat, k: string)
    requires Enabled(s, Step(c)) && s.tasks[c].Finishing? && s.tasks[c].value.Some?
    ensures Moved(s, Next(s, Step(c)), c, k)
  {
    var key, v := s.tasks[c].key, s.tasks[c].value.value;
    StoredAtKey(s.(clock := s.clock + 1), c, map[key := v], {}, k);
  }

  lemma RemoveMoves(s: State, c: nat, k: string)
    requires Enabled(s, Step(c)) && s.tasks[c].Finishing? && s.tasks[c].value == None
    ensures Moved(s, Next(s, Step(c)), c, k)
  {
    StoredAtKey(s.(clock := s.clock + 1), c, map[], {s.tasks[c].key}, k);
  }

  lemma StepMoves(s: State, c: nat, k: string)
    requires Enabled(s, Step(c)) && CallsOk(s, k)
    ensures Moved(s, Next(s, Step(c)), c, k)
  {
    match s.tasks[c]
    case Installing(_, data, i) =>
      if i < |data| {
        InstallMoves(s, c, k);
      } else {
        PipelineMoves(s, c, k);
      }
    case Invalidating(_, _) => InvalidateMoves(s, c, k);
    case Writing(_, _) => WriteMoves(s, c, k);
    case Finishing(_, Some(_)) => SetMoves(s, c, k);
    case Finishing(_, None) => RemoveMoves(s, c, k);
    case _ => LookupMoves(s, c, k);
  }

  /** The tasks and the clock, whatever the step writes. */
  lemma StepTasks(s: State, c: nat)
    requires Enabled(s, Step(c))
    ensures var s' := Next(s, Step(c));
            && s'.clock == s.clock + 1 && s'.begun == s.begun
            && (c in s'.tasks ==> !s'.tasks[c].Looking? && (s'.tasks[c].Reading? ==> s.tasks[c].Looking?))
            && forall d :: d != c ==>
                 (d in s'.tasks <==> d in s.tasks) && (d in s.tasks ==> s'.tasks[d] == s.tasks[d])
  {
  }

  lemma OthersStay(s: State, c: nat, k: string)
    requires Enabled(s, Step(c))
    ensures forall d :: d != c ==> RoleAt(Next(s, Step(c)), d, k) == RoleAt(s, d, k)
  {
    StepTasks(s, c);
  }

  lemma AheadAfterReload(s: State, c: nat, k: string)
    requires Enabled(s, Step(c)) && (s.tasks[c].Installing? || s.tasks[c].Invalidating?)
    ensures var s' := Next(s, Step(c));
            c in s'.tasks && DbAhead(s'.tasks[c], k) ==> At(s', k).db == At(s, k).db && DbAhead(s.tasks[c], k)
  {
  }

  lemma AheadAfter(s: State, c: nat, k: string)
    requires Enabled(s, Step(c))
    ensures var s' := Next(s, Step(c));
            c in s'.tasks && DbAhead(s'.tasks[c], k) ==> At(s', k).db == At(s, k).db && DbAhead(s.tasks[c], k)
  {
    if s.tasks[c].Installing? || s.tasks[c].Invalidating? {
      AheadAfterReload(s, c, k);
    }
  }

  lemma CallsStayOk(s: State, c: nat, k: string)
    requires Enabled(s, Step(c)) && CallsOk(s, k)
    ensures CallsOk(Next(s, Step(c)), k)
  {
    StepTasks(s, c);
    AheadAfter(s, c, k);
    StepMoves(s, c, k);
    assert At(Next(s, Step(c)), k).db.Keys <= At(s, k).db.Keys + {c};
  }

  lemma TimesMove(cell: Cell, role: Role, cell': Cell, role': Role, c: nat, t: nat)
    requires Moves(cell, role, cell', role', c, t + 1) && TimesOk(cell, t) && WriterIsLast(cell)
    requires 0 < c
    ensures TimesOk(cell', t + 1) && WriterIsLast(cell')
  {
    forall d ensures MemAt(cell', d) == MemAt(cell, d) || (d == c && MemAt(cell', d) == t + 1) {}
    forall d ensures DbAt(cell', d) == DbAt(cell, d) || (d == c && DbAt(cell', d) == t + 1) {}
    forall d ensures MemAt(cell', d) <= t + 1 {
      assert MemAt(cell, d) <= t;
    }
    forall d ensures DbAt(cell', d) <= t + 1 {
      assert DbAt(cell, d) <= t;
    }
  }

  lemma HistoryMoves(cell: Cell, role: Role, cell': Cell, role': Role, c: nat, t: nat)
    requires Moves(cell, role, cell', role', c, t + 1) && HistoryOk(cell) && RoleOk(cell, c, role)
    ensures HistoryOk(cell')
  {
  }

  /** What another call works with still stems from the same write. */
  lemma OthersStem(cell: Cell, role: Role, cell': Cell, role': Role, c: nat, t: nat, d: nat, v: string, origin: nat)
    requires Moves(cell, role, cell', role', c, t + 1) && TimesOk(cell, t) && HistoryOk(cell)
    requires 0 < c && RoleOk(cell, c, role) && d != c && StemsFrom(cell, d, v, origin)
    ensures StemsFrom(cell', d, v, origin)
  {
    assert DbAt(cell, d) <= t;
  }

  lemma RolesMove(cell: Cell, role: Role, cell': Cell, role': Role, c: nat, t: nat, d: nat, r: Role)
    requires Moves(cell, role, cell', role', c, t + 1) && TimesOk(cell, t) && HistoryOk(cell)
    requires 0 < c && RoleOk(cell, c, role) && d != c && RoleOk(cell, d, r)
    ensures RoleOk(cell', d, r)
  {
    if r.Fill? {
      OthersStem(cell, role, cell', role', c, t, d, r.read, r.origin);
    }
  }

  lemma OwnRoleMoves(cell: Cell, role: Role, cell': Cell, role': Role, c: nat, t: nat)
    requires Moves(cell, role, cell', role', c, t + 1) && TimesOk(cell, t) && HistoryOk(cell)
    requires 0 < c && RoleOk(cell, c, role)
    ensures RoleOk(cell', c, role')
  {
    assert DbAt(cell, cell.lastDb) <= t;
  }

  lemma ValueMoves(cell: Cell, role: Role, cell': Cell, role': Role, c: nat, t: nat, other: Role)
    requires Moves(cell, role, cell', role', c, t + 1) && TimesOk(cell, t) && HistoryOk(cell)
    requires 0 < c && RoleOk(cell, c, role)
    requires cell.held.Some? ==> ValueOk(cell, if cell.held.value.writer == c then role else other)
    ensures cell'.held.Some? ==> ValueOk(cell', if cell'.held.value.writer == c then role' else other)
  {
    if cell.held.Some? && cell.held.value.writer != c && !other.Half? {
      var held := cell.held.value;
      OthersStem(cell, role, cell', role', c, t, held.writer, held.value, held.origin);
    }
  }

  lemma StepKeepsKey(s: State, c: nat, k: string)
    requires KeyInv(s, k) && Enabled(s, Step(c))
    ensures KeyInv(Next(s, Step(c)), k)
  {
    var s' := Next(s, Step(c));
    var cell, cell', role, role' := At(s, k), At(s', k), RoleAt(s, c, k), RoleAt(s', c, k);
    StepMoves(s, c, k);
    StepTasks(s, c);
    OthersStay(s, c, k);
    CallsStayOk(s, c, k);
    TimesMove(cell, role, cell', role', c, s.clock);
    HistoryMoves(cell, role, cell', role', c, s.clock);
    ValueMoves(cell, role, cell', role', c, s.clock,
               if cell.held.Some? then RoleAt(s, cell.held.value.writer, k) else Neither);
    OwnRoleMoves(cell, role, cell', role', c, s.clock);
    forall d ensures RoleOk(cell', d, RoleAt(s', d, k)) {
      if d != c {
        RolesMove(cell, role, cell', role', c, s.clock, d, RoleAt(s, d, k));
      }
    }
  }

  lemma OtherFrame(s: State, e: Event, k: string)
    requires Enabled(s, e) && !e.Step? && CallsOk(s, k)
    ensures var s' := Next(s, e);
            && (At(s', k) == At(s, k) || At(s', k) == At(s, k).(held := None))
            && s'.clock == s.clock && CallsOk(s', k)
            && forall d :: RoleAt(s', d, k) == RoleAt(s, d, k)
  {
    if e.Begin? && e.what.Reload? {
      assert e.what.data[..0] == [];
    }
  }

  lemma OtherKeepsKey(s: State, e: Event, k: string)
    requires KeyInv(s, k) && Enabled(s, e) && !e.Step?
    ensures KeyInv(Next(s, e), k)
  {
    var s' := Next(s, e);
    var cell, cell' := At(s, k), At(s', k);
    OtherFrame(s, e, k);
    forall d ensures MemAt(cell', d) == MemAt(cell, d) && DbAt(cell', d) == DbAt(cell, d) {}
    forall d ensures RoleOk(cell', d, RoleAt(s', d, k)) {
      assert RoleOk(cell, d, RoleAt(s, d, k));
    }
  }

  lemma {:induction false} RunKeepsKeys(states: seq<State>, events: seq<Event>, keydb: Store, n: nat, k: string)
    requires IsRun(states, events, keydb) && n <= |events|
    ensures KeyInv(states[n], k)
    decreases n
  {
    if n > 0 {
      var s, e := states[n - 1], events[n - 1];
      assert StepAt(states, events, n - 1);
      RunKeepsKeys(states, events, keydb, n - 1, k);
      if e.Step? {
        StepKeepsKey(s, e.call, k);
      } else {
        OtherKeepsKey(s, e, k);
      }
    }
  }

  // ------------------------------------------------------------ main results

  /** In every state of every run, however calls overlap: the value in process of a key that
      no call is in the middle of comes from the last write in KeyDB if and only if the call
      that put it in process and that last writer did not access the stores in opposite
      orders. */
  lemma OriginIsLastIff(states: seq<State>, events: seq<Event>, keydb: Store, n: nat, k: string)
    requires IsRun(states, events, keydb) && n <= |events| && Quiet(states[n], k)
    requires At(states[n], k).held.Some?
    ensures var cell := At(states[n], k);
            var b := cell.held.value;
            && (b.origin == cell.lastDb <==> !Inverted(cell, cell.lastDb, b.writer))
            && b.origin in cell.wrote && cell.wrote[b.origin] == Some(b.value)
            && cell.lastDb in cell.wrote && cell.wrote[cell.lastDb] == cell.stored
  {
    RunKeepsKeys(states, events, keydb, n, k);
    var cell := At(states[n], k);
    assert RoleAt(states[n], cell.held.value.writer, k) == Neither;
  }

  /** No two calls stored the same value. */
  predicate ValuesDiffer(cell: Cell) {
    forall a, b :: a in cell.wrote && b in cell.wrote && a != b && cell.wrote[a] == cell.wrote[b] ==>
      cell.wrote[a] == None
  }

  /** So, unless two calls stored the same value, the key is coherent if and only if those
      two calls did not access the stores in opposite orders. */
  lemma QuietCoherentIff(states: seq<State>, events: seq<Event>, keydb: Store, n: nat, k: string)
    requires IsRun(states, events, keydb) && n <= |events| && Quiet(states[n], k)
    requires At(states[n], k).held.Some? && ValuesDiffer(At(states[n], k))
    ensures var cell := At(states[n], k);
            Coherent1(cell) <==> !Inverted(cell, cell.lastDb, cell.held.value.writer)
  {
    OriginIsLastIff(states, events, keydb, n, k);
  }

  /** All accesses of `a` to the key come before all of `b`. */
  predicate Before(cell: Cell, a: nat, b: nat) {
    && (a in cell.mem && b in cell.mem ==> cell.mem[a] < cell.mem[b])
    && (a in cell.mem && b in cell.db ==> cell.mem[a] < cell.db[b])
    && (a in cell.db && b in cell.mem ==> cell.db[a] < cell.mem[b])
    && (a in cell.db && b in cell.db ==> cell.db[a] < cell.db[b])
  }

  ghost predicate NoneOverlap(cell: Cell) {
    forall a, b :: a != b ==> Before(cell, a, b) || Before(cell, b, a)
  }

  /** So a key is coherent whenever no call is in the middle of it, if calls on the key do
      not overlap. */
  lemma SeparateCallsKeepCoherent(states: seq<State>, events: seq<Event>, keydb: Store, n: nat, k: string)
    requires IsRun(states, events, keydb) && n <= |events| && Quiet(states[n], k)
    requires NoneOverlap(At(states[n], k))
    ensures Coherent1(At(states[n], k))
  {
    var cell := At(states[n], k);
    if cell.held.Some? {
      OriginIsLastIff(states, events, keydb, n, k);
      var a, b := cell.lastDb, cell.held.value.writer;
      RunKeepsKeys(states, events, keydb, n, k);
      assert RoleAt(states[n], b, k) == Neither;
      assert Inverted(cell, a, b) ==> !Before(cell, a, b) && !Before(cell, b, a);
    }
  }
}
