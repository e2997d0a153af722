/** What repeated reloads of one prefix achieve while other calls go on. */
module CacheConvergence {
  import opened Collections
  import opened CacheReload
  import opened CacheInterleaving

  /** A reload: its prefix, and the keys of its data. */
  datatype Target = Target(prefix: string, newKeys: set<string>)

  /** The keys under the prefix that are in KeyDB and not in the data. */
  function Old(s: State, t: Target): set<string> {
    set k | k in s.cells && s.cells[k].stored.Some? && t.prefix <= k && k !in t.newKeys
  }

  /** The event is the listing of such a reload. */
  predicate Lists(s: State, e: Event, t: Target) {
    e.Listed? && e.call in s.tasks && s.tasks[e.call] == Listing(t.prefix, t.newKeys)
  }

  /** What a reload picks: each key once, and unless the bound is reached every old key of
      KeyDB.  Keys that only the in-process store holds may be among them. */
  ghost predicate Picks(s: State, t: Target, todo: seq<string>) {
    |SetOf(todo)| == |todo| <= STALE_CAP && (|todo| == STALE_CAP || Old(s, t) <= SetOf(todo))
  }

  /** Of the reload that listed last, the keys that it has yet to remove in KeyDB. */
  function Due(s: State, c: nat): set<string> {
    if c in s.tasks && s.tasks[c].Invalidating? then SetOf(s.tasks[c].todo) else {}
  }

  /** The old keys that nobody is about to remove. */
  function Left(s: State, t: Target, c: nat): set<string> {
    Old(s, t) - Due(s, c)
  }

  /** Of a run so far: the reload that listed last (0 before the first), how many listed,
      how many picked keys were not in KeyDB, and how often an old key came into KeyDB. */
  datatype Tally = Tally(last: nat, listings: nat, wasted: nat, arrived: nat)

  const NOTHING := Tally(0, 0, 0, 0)

  function After(y: Tally, s: State, e: Event, s': State, t: Target): Tally {
    var arrived := y.arrived + |Old(s', t) - Old(s, t)|;
    if Lists(s, e, t) then Tally(e.call, y.listings + 1, y.wasted + |SetOf(e.todo) - Old(s, t)|, arrived)
    else y.(arrived := arrived)
  }

  function TallyAt(states: seq<State>, events: seq<Event>, t: Target, n: nat): Tally
    requires n <= |events| < |states|
  {
    if n == 0 then NOTHING
    else After(TallyAt(states, events, t, n - 1), states[n - 1], events[n - 1], states[n], t)
  }

  /** The reload before has returned when the next one lists. */
  ghost predicate InTurn(y: Tally, s: State, e: Event, t: Target) {
    Lists(s, e, t) ==> Picks(s, t, e.todo) && y.last !in s.tasks
  }

  ghost predicate InTurnAt(states: seq<State>, events: seq<Event>, t: Target, i: nat)
    requires i < |events| < |states|
  {
    InTurn(TallyAt(states, events, t, i), states[i], events[i], t)
  }

  /** Reloads of this prefix do not overlap each other. */
  ghost predicate ListsInTurn(states: seq<State>, events: seq<Event>, t: Target, n: nat)
    requires n <= |events| < |states|
  {
    forall i :: 0 <= i < n ==> InTurnAt(states, events, t, i)
  }

  function Excess(a: nat, b: nat): nat {
    if b <= a then a - b else 0
  }

  // ------------------------------------------------------------ one step

  lemma RemovalStep(s: State, c: nat, t: Target)
    requires Enabled(s, Step(c)) && s.tasks[c].Invalidating? && |s.tasks[c].todo| <= s.tasks[c].done
    ensures Old(Next(s, Step(c)), t) !! Due(s, c)
  {
    var todo := s.tasks[c].todo;
    var s1 := s.(clock := s.clock + 1);
    forall k | k in SetOf(todo) ensures k !in Old(Next(s, Step(c)), t) {
      StoredAtKey(s1, c, map[], SetOf(todo), k);
    }
  }

  lemma DueKept(s: State, e: Event, c: nat)
    requires Enabled(s, e) && s.tasks.Keys <= s.begun
    requires !(e == Step(c) && c in s.tasks && s.tasks[c].Invalidating? && |s.tasks[c].todo| <= s.tasks[c].done)
    ensures Due(s, c) <= Due(Next(s, e), c)
  {
    if e.Step? {
      StepTasks(s, e.call);
    }
  }

  /** Whatever happens, only keys that come into KeyDB add to those left. */
  lemma LeftGrowsBy(s: State, e: Event, t: Target, c: nat)
    requires Enabled(s, e) && s.tasks.Keys <= s.begun
    ensures var s' := Next(s, e); Left(s', t, c) <= Left(s, t, c) + (Old(s', t) - Old(s, t))
  {
    if e == Step(c) && s.tasks[c].Invalidating? && |s.tasks[c].todo| <= s.tasks[c].done {
      RemovalStep(s, c, t);
    } else {
      DueKept(s, e, c);
    }
  }

  lemma SizeAtMost(a: set<string>, b: set<string>, c: set<string>)
    requires a <= b + c
    ensures |a| <= |b| + |c|
  {
    SubsetSize(a, b + c);
    assert b + c == b + (c - b);
    SubsetSize(c - b, c);
  }

  lemma DifferenceSizes(all: set<string>, todo: set<string>)
    ensures |all - todo| == |all| - |todo| + |todo - all|
  {
    assert all == (all - todo) + (all * todo) && todo == (todo - all) + (all * todo);
  }

  lemma ListingStep(s: State, e: Event, t: Target, c: nat)
    requires Enabled(s, e) && Lists(s, e, t) && Picks(s, t, e.todo) && c !in s.tasks
    ensures var s' := Next(s, e);
            && Old(s', t) == Old(s, t)
            && |SetOf(e.todo) - Old(s, t)| <= STALE_CAP
            && |Left(s', t, e.call)| <= Excess(|Left(s, t, c)| + |SetOf(e.todo) - Old(s, t)|, STALE_CAP)
  {
    var s' := Next(s, e);
    var all, todo := Old(s, t), SetOf(e.todo);
    assert e.todo == [] ==> todo == {};
    assert Due(s', e.call) == todo;
    DifferenceSizes(all, todo);
    SubsetSize(todo - all, todo);
    if all <= todo {
      assert all - todo == {};
    }
  }

  // ------------------------------------------------------------ all steps

  /** From `first` old keys every reload takes the bound; picks that were not in KeyDB are
      wasted, and arrivals come on top. */
  function Bound(first: nat, y: Tally): nat {
    Excess(first + y.wasted, y.listings * STALE_CAP) + y.arrived
  }

  lemma ExcessAgain(a: nat, r: nat, arrived: nat, wasted: nat)
    requires wasted <= STALE_CAP
    ensures Excess(Excess(a, r * STALE_CAP) + arrived + wasted, STALE_CAP)
         <= Excess(a + wasted, (r + 1) * STALE_CAP) + arrived
  {
  }

  ghost predicate Within(first: nat, y: Tally, s: State, t: Target) {
    |Left(s, t, y.last)| <= Bound(first, y)
  }

  lemma WithinAfterListing(first: nat, y: Tally, s: State, e: Event, t: Target)
    requires Enabled(s, e) && Lists(s, e, t) && InTurn(y, s, e, t) && Within(first, y, s, t)
    ensures Within(first, After(y, s, e, Next(s, e), t), Next(s, e), t)
  {
    ListingStep(s, e, t, y.last);
    ExcessAgain(first + y.wasted, y.listings, y.arrived, |SetOf(e.todo) - Old(s, t)|);
    assert Old(s, t) - Old(s, t) == {};
  }

  lemma WithinAfterOther(first: nat, y: Tally, s: State, e: Event, t: Target)
    requires Enabled(s, e) && !Lists(s, e, t) && s.tasks.Keys <= s.begun && Within(first, y, s, t)
    ensures Within(first, After(y, s, e, Next(s, e), t), Next(s, e), t)
  {
    var s' := Next(s, e);
    LeftGrowsBy(s, e, t, y.last);
    SizeAtMost(Left(s', t, y.last), Left(s, t, y.last), Old(s', t) - Old(s, t));
  }

  lemma WithinAt(states: seq<State>, events: seq<Event>, keydb: Store, t: Target, n: nat)
    requires IsRun(states, events, keydb) && n < |events| && InTurnAt(states, events, t, n)
    requires Within(|Old(states[0], t)|, TallyAt(states, events, t, n), states[n], t)
    ensures Within(|Old(states[0], t)|, TallyAt(states, events, t, n + 1), states[n + 1], t)
  {
    var s, e, y := states[n], events[n], TallyAt(states, events, t, n);
    assert StepAt(states, events, n);
    if Lists(s, e, t) {
      WithinAfterListing(|Old(states[0], t)|, y, s, e, t);
    } else {
      TasksHaveBegun(states, events, keydb, n);
      WithinAfterOther(|Old(states[0], t)|, y, s, e, t);
    }
  }

  lemma TasksHaveBegun(states: seq<State>, events: seq<Event>, keydb: Store, n: nat)
    requires IsRun(states, events, keydb) && n <= |events|
    ensures states[n].tasks.Keys <= states[n].begun
  {
    RunKeepsKeys(states, events, keydb, n, "");
  }

  lemma WithinAtFirst(states: seq<State>, events: seq<Event>, t: Target)
    requires |events| < |states|
    ensures Within(|Old(states[0], t)|, TallyAt(states, events, t, 0), states[0], t)
  {
    SubsetSize(Left(states[0], t, 0), Old(states[0], t));
  }

  lemma {:induction false} LeftBounded(states: seq<State>, events: seq<Event>, keydb: Store, t: Target, n: nat)
    requires IsRun(states, events, keydb) && n <= |events| && ListsInTurn(states, events, t, n)
    ensures Within(|Old(states[0], t)|, TallyAt(states, events, t, n), states[n], t)
    decreases n
  {
    if n == 0 {
      WithinAtFirst(states, events, t);
    } else {
      LeftBounded(states, events, keydb, t, n - 1);
      assert InTurnAt(states, events, t, n - 1);
      WithinAt(states, events, keydb, t, n - 1);
    }
  }

  /** In every run, whatever other calls do meanwhile: when the last of r reloads of the same
      keys has returned, the old keys in KeyDB are at most those it had at first, less r
      times the bound for those removed, plus the picked keys that were not in KeyDB, plus
      the old keys that came in since. */
  lemma OldKeysBounded(states: seq<State>, events: seq<Event>, keydb: Store, t: Target, n: nat)
    requires IsRun(states, events, keydb) && n <= |events| && ListsInTurn(states, events, t, n)
    requires TallyAt(states, events, t, n).last !in states[n].tasks
    ensures var y := TallyAt(states, events, t, n);
            |Old(states[n], t)| <= Bound(|Old(states[0], t)|, y)
  {
    LeftBounded(states, events, keydb, t, n);
    NoneDue(states[n], t, TallyAt(states, events, t, n).last);
  }

  lemma NoneDue(s: State, t: Target, c: nat)
    requires c !in s.tasks
    ensures Left(s, t, c) == Old(s, t)
  {
  }
}
