/** The block allocator of ticket ids as a state machine over its atomic steps.
    Every load, store, fetch-add and compare-exchange of a call is one step, and
    the steps of any number of calls interleave. */
module TicketIdProtocol {
  import opened TicketIdFormat

  const MAX_POLLS: nat := 50

  datatype Config = Config(suffixMax: nat, threshold: nat)

  datatype Block = Block(prefix: int, suffix: int)

  /** Where a call is.  A call that is not in `tasks` has not begun or has returned. */
  datatype Pc =
    | Loaded(prefix: int)                  // read a non-zero prefix, next: bump the counter
    | InitFetch                            // read prefix 0, waiting for the sequence
    | InitStorePrefix(fetched: int)
    | InitStoreCounter(fetched: int)
    | Poll(polls: nat)                     // suffix over the maximum, waiting for next_prefix
    | RollFetch
    | RollStorePrefix(fetched: int)
    | RollClearNext(fetched: int)
    | RollStoreCounter(fetched: int)
    | RollClearRequested(fetched: int)
    | CheckPrefetch(block: Block)          // id decided, maybe_trigger_prefetch begins
    | PrefetchFetch(block: Block)
    | PrefetchStore(block: Block, fetched: int)

  /** `drawn`, `retired` and `issued` are history: the sequence values handed out so
      far, the prefixes replaced by a later one, and the block ids in issue order. */
  datatype State = State(
    current: int, counter: int, next: int, requested: bool,
    drawn: set<int>, retired: set<int>, issued: seq<Block>, tasks: map<nat, Pc>)

  datatype Event =
    | Begin(task: nat)
    | Step(task: nat)
    | Fetched(task: nat, value: int)       // the sequence answered; 0 stands for a failure

  const INITIAL := State(0, 0, 0, false, {}, {}, [], map[])

  /** The sequence yields positive values it never yielded before. */
  ghost predicate Enabled(s: State, e: Event) {
    match e
    case Begin(t) => t !in s.tasks
    case Step(t) => t in s.tasks && !AwaitsFetch(s.tasks[t])
    case Fetched(t, v) => t in s.tasks && AwaitsFetch(s.tasks[t]) && (v == 0 || (0 < v && v !in s.drawn))
  }

  predicate AwaitsFetch(pc: Pc) {
    pc.InitFetch? || pc.RollFetch? || pc.PrefetchFetch?
  }

  function Goto(s: State, t: nat, pc: Pc): State {
    s.(tasks := s.tasks[t := pc])
  }

  function Return(s: State, t: nat): State {
    s.(tasks := map u | u in s.tasks && u != t :: s.tasks[u])
  }

  function Next(s: State, e: Event, cfg: Config): State
    requires Enabled(s, e)
  {
    match e
    case Begin(t) => Goto(s, t, if s.current == 0 then InitFetch else Loaded(s.current))
    case Fetched(t, v) => NextFetched(s, t, v)
    case Step(t) => NextStep(s, t, cfg)
  }

  /** A fetch that fails in `InitFetch` or `RollFetch` makes the call return the
      hash based id; in a prefetch it only leaves `next_prefix` alone. */
  function NextFetched(s: State, t: nat, v: int): State
    requires t in s.tasks && AwaitsFetch(s.tasks[t])
  {
    if v == 0 then Return(s, t)
    else
      var s' := s.(drawn := s.drawn + {v});
      match s.tasks[t]
      case InitFetch => Goto(s', t, InitStorePrefix(v))
      case RollFetch => Goto(s', t, RollStorePrefix(v))
      case PrefetchFetch(b) => Goto(s', t, PrefetchStore(b, v))
  }

  function NextStep(s: State, t: nat, cfg: Config): State
    requires t in s.tasks && !AwaitsFetch(s.tasks[t])
  {
    match s.tasks[t]
    case Loaded(p) =>
      var s' := s.(counter := s.counter + 1);
      if s.counter + 1 > cfg.suffixMax then Goto(s', t, Poll(0))
      else
        var b := Block(p, s.counter + 1);
        Goto(s'.(issued := s.issued + [b]), t, CheckPrefetch(b))
    case InitStorePrefix(v) => Goto(s.(current := v), t, InitStoreCounter(v))
    case InitStoreCounter(v) =>
      Goto(s.(counter := 1, issued := s.issued + [Block(v, 1)]), t, CheckPrefetch(Block(v, 1)))
    case Poll(k) =>
      if s.next != 0 then Goto(s, t, RollStorePrefix(s.next))
      else Goto(s, t, if k + 1 < MAX_POLLS then Poll(k + 1) else RollFetch)
    case RollStorePrefix(v) =>
      Goto(s.(current := v, retired := s.retired + {s.current}), t, RollClearNext(v))
    case RollClearNext(v) => Goto(s.(next := 0), t, RollStoreCounter(v))
    case RollStoreCounter(v) =>
      Goto(s.(counter := 1, issued := s.issued + [Block(v, 1)]), t, RollClearRequested(v))
    case RollClearRequested(v) => Goto(s.(requested := false), t, CheckPrefetch(Block(v, 1)))
    case CheckPrefetch(b) =>
      if b.suffix < cfg.threshold || s.requested then Return(s, t)
      else Goto(s.(requested := true), t, PrefetchFetch(b))
    case PrefetchStore(b, v) => Return(s.(next := v), t)
  }

  /** Initialising (prefix read as 0) or rolling over, until the counter is reset. */
  predicate Renewing(pc: Pc) {
    pc.InitFetch? || pc.InitStorePrefix? || pc.InitStoreCounter? || pc.Poll? || pc.RollFetch?
    || pc.RollStorePrefix? || pc.RollClearNext? || pc.RollStoreCounter?
  }

  ghost predicate OneRenewing(s: State) {
    forall t, u :: t in s.tasks && u in s.tasks && Renewing(s.tasks[t]) && Renewing(s.tasks[u]) ==> t == u
  }

  /** No call still holds a prefix other than `v`, so resetting the counter is safe. */
  ghost predicate NoStaleLoad(s: State, v: int) {
    forall u :: u in s.tasks && s.tasks[u].Loaded? ==> s.tasks[u].prefix == v
  }

  ghost predicate NoInitWindow(s: State) {
    forall u :: u in s.tasks ==> !s.tasks[u].InitStoreCounter?
  }

  /** The counter reset of a rollover does not fall between another call's load and bump. */
  ghost predicate ResetIsClean(s: State, e: Event)
    requires Enabled(s, e)
  {
    e.Step? && s.tasks[e.task].RollStoreCounter? ==> NoStaleLoad(s, s.tasks[e.task].fetched)
  }

  /** No bump falls between the two stores of an initialisation. */
  ghost predicate BumpIsClean(s: State, e: Event)
    requires Enabled(s, e)
  {
    e.Step? && s.tasks[e.task].Loaded? ==> NoInitWindow(s)
  }

  /** Initialisation and rollover are exclusive and their counter reset does not fall
      between another call's prefix load and its bump; dually no bump falls between
      the two stores of an initialisation. */
  ghost predicate Disciplined(s: State, e: Event, cfg: Config)
    requires Enabled(s, e)
  {
    OneRenewing(Next(s, e, cfg)) && ResetIsClean(s, e) && BumpIsClean(s, e)
  }

  ghost predicate Runs(s: State, es: seq<Event>, cfg: Config)
    decreases |es|
  {
    es == [] || (Enabled(s, es[0]) && Runs(Next(s, es[0], cfg), es[1..], cfg))
  }

  ghost function Exec(s: State, es: seq<Event>, cfg: Config): State
    requires Runs(s, es, cfg)
    decreases |es|
  {
    if es == [] then s else Exec(Next(s, es[0], cfg), es[1..], cfg)
  }

  ghost predicate AllDisciplined(s: State, es: seq<Event>, cfg: Config)
    requires Runs(s, es, cfg)
    decreases |es|
  {
    es == [] || (Disciplined(s, es[0], cfg) && AllDisciplined(Next(s, es[0], cfg), es[1..], cfg))
  }

  // ------------------------------------------------------------ the invariant

  /** A sequence value that is not, and never was, the current prefix. */
  predicate Spare(s: State, v: int) {
    v in s.drawn && v !in s.retired && v != s.current
  }

  function Held(pc: Pc): int {
    if pc.InitStorePrefix? || pc.RollStorePrefix? || pc.PrefetchStore? then pc.fetched else 0
  }

  predicate PcOk(s: State, pc: Pc, cfg: Config) {
    match pc
    case Loaded(p) => s.current != 0 && (p == s.current || p in s.retired)
    case InitFetch => s.current == 0
    case InitStorePrefix(v) => s.current == 0 && Spare(s, v)
    case InitStoreCounter(v) => s.current == v != 0 && s.counter == 0
    case RollStorePrefix(v) => s.current != 0 && s.counter > cfg.suffixMax && Spare(s, v)
    case RollClearNext(v) => s.current == v && s.counter > cfg.suffixMax
    case RollStoreCounter(v) => s.current == v && s.counter > cfg.suffixMax
    case PrefetchStore(_, v) => s.current != 0 && Spare(s, v) && v != s.next
    case _ => s.current != 0 && (pc.Poll? || pc.RollFetch? ==> s.counter > cfg.suffixMax)
  }

  /** Some call has replaced the prefix and not yet reset the counter. */
  ghost predicate InWindow(s: State) {
    exists t :: t in s.tasks && (s.tasks[t].RollClearNext? || s.tasks[t].RollStoreCounter?)
  }

  ghost predicate NextUncleared(s: State) {
    exists t :: t in s.tasks && s.tasks[t].RollClearNext?
  }

  ghost predicate IssuedExactly(s: State, b: Block, cfg: Config) {
    1 <= b.suffix <= cfg.suffixMax &&
    (b.prefix in s.retired || (b.prefix == s.current != 0 && !InWindow(s) && b.suffix <= s.counter))
  }

  ghost predicate Distinct<T>(q: seq<T>) {
    forall i, j :: 0 <= i < j < |q| ==> q[i] != q[j]
  }

  ghost predicate RegistersOk(s: State) {
    && (forall d :: d in s.drawn ==> 0 < d)
    && s.retired <= s.drawn
    && 0 <= s.counter
    && (s.current == 0 ==> s.counter == 0 && s.next == 0 && s.retired == {} && s.issued == [])
    && (s.current != 0 ==> s.current in s.drawn && s.current !in s.retired)
    && (s.next != 0 ==> s.next in s.drawn && s.next !in s.retired && (s.next == s.current ==> NextUncleared(s)))
  }

  ghost predicate TasksOk(s: State, cfg: Config) {
    && (forall t :: t in s.tasks ==> PcOk(s, s.tasks[t], cfg))
    && (forall t, u :: t in s.tasks && u in s.tasks && t != u && Held(s.tasks[t]) != 0
                       ==> Held(s.tasks[t]) != Held(s.tasks[u]))
    && OneRenewing(s)
    && (!InWindow(s) ==> NoStaleLoad(s, s.current))
  }

  /** All blocks before the current one are used up, the current one is used up to
      the counter, and no id was issued twice. */
  ghost predicate HistoryOk(s: State, cfg: Config) {
    && Distinct(s.issued)
    && (forall b :: b in s.issued <==> IssuedExactly(s, b, cfg))
  }

  ghost predicate Inv(s: State, cfg: Config) {
    1 <= cfg.suffixMax && RegistersOk(s) && TasksOk(s, cfg) && HistoryOk(s, cfg)
  }

  lemma InitialInv(cfg: Config)
    requires 1 <= cfg.suffixMax
    ensures Inv(INITIAL, cfg)
  {
  }

  /** Moving one task between places outside the window changes neither the window
      nor the set of ids the invariant expects. */
  lemma SameWindow(s: State, s': State, t: nat)
    requires forall u :: u != t ==> (u in s.tasks <==> u in s'.tasks)
    requires forall u :: u != t && u in s.tasks ==> s.tasks[u] == s'.tasks[u]
    requires t in s.tasks ==> !s.tasks[t].RollClearNext? && !s.tasks[t].RollStoreCounter?
    requires t in s'.tasks ==> !s'.tasks[t].RollClearNext? && !s'.tasks[t].RollStoreCounter?
    ensures InWindow(s) == InWindow(s')
    ensures NextUncleared(s) == NextUncleared(s')
  {
  }

  lemma AppendKeepsDistinct<T>(q: seq<T>, x: T)
    requires Distinct(q) && x !in q
    ensures Distinct(q + [x])
  {
  }

  /** The issue history depends on the calls only through the window. */
  lemma KeepHistory(s: State, s': State, cfg: Config)
    requires HistoryOk(s, cfg)
    requires s'.issued == s.issued && s'.retired == s.retired
    requires s'.current == s.current && s'.counter == s.counter
    requires InWindow(s) == InWindow(s')
    ensures HistoryOk(s', cfg)
  {
  }

  ghost predicate OthersSame(s: State, s': State, t: nat) {
    && (forall u :: u != t ==> (u in s.tasks <==> u in s'.tasks))
    && (forall u :: u != t && u in s.tasks ==> s.tasks[u] == s'.tasks[u])
  }

  /** A step that moves one task and leaves the registers the others rely on. */
  lemma MoveTask(s: State, s': State, t: nat, cfg: Config)
    requires TasksOk(s, cfg) && OthersSame(s, s', t)
    requires s'.current == s.current && s'.counter == s.counter
    requires s'.next == s.next && s'.retired == s.retired && s.drawn <= s'.drawn
    requires OneRenewing(s')
    requires InWindow(s) == InWindow(s')
    requires t in s'.tasks ==> PcOk(s', s'.tasks[t], cfg)
    requires t in s'.tasks && s'.tasks[t].Loaded? ==> s'.tasks[t].prefix == s.current
    requires t in s'.tasks && Held(s'.tasks[t]) != 0 ==>
               forall u :: u in s.tasks && u != t ==> Held(s.tasks[u]) != Held(s'.tasks[t])
    ensures TasksOk(s', cfg)
  {
    forall u | u in s'.tasks ensures PcOk(s', s'.tasks[u], cfg) {
      if u != t {
        assert PcOk(s, s.tasks[u], cfg);
      }
    }
  }

  lemma BeginKeepsInv(s: State, t: nat, cfg: Config)
    requires Inv(s, cfg) && Enabled(s, Begin(t)) && Disciplined(s, Begin(t), cfg)
    ensures Inv(Next(s, Begin(t), cfg), cfg)
  {
    var s' := Next(s, Begin(t), cfg);
    SameWindow(s, s', t);
    MoveTask(s, s', t, cfg);
    KeepHistory(s, s', cfg);
  }

  lemma FetchedKeepsInv(s: State, t: nat, v: int, cfg: Config)
    requires Inv(s, cfg) && Enabled(s, Fetched(t, v)) && Disciplined(s, Fetched(t, v), cfg)
    ensures Inv(Next(s, Fetched(t, v), cfg), cfg)
  {
    var s' := Next(s, Fetched(t, v), cfg);
    SameWindow(s, s', t);
    KeepHistory(s, s', cfg);
    HeldIsDrawn(s, cfg);
    assert PcOk(s, s.tasks[t], cfg);
    MoveTask(s, s', t, cfg);
  }

  lemma HeldIsDrawn(s: State, cfg: Config)
    requires TasksOk(s, cfg)
    ensures forall u :: u in s.tasks && Held(s.tasks[u]) != 0 ==> Held(s.tasks[u]) in s.drawn
  {
  }

  lemma BumpKeepsInv(s: State, t: nat, cfg: Config)
    requires Inv(s, cfg) && Enabled(s, Step(t)) && s.tasks[t].Loaded? && Disciplined(s, Step(t), cfg)
    ensures Inv(Next(s, Step(t), cfg), cfg)
  {
    var s' := Next(s, Step(t), cfg);
    SameWindow(s, s', t);
    assert PcOk(s, s.tasks[t], cfg);
    BumpOutsideWindow(s, t, cfg);
    BumpKeepsHistory(s, t, cfg);
    forall u | u in s'.tasks ensures PcOk(s', s'.tasks[u], cfg) {
      if u != t {
        assert PcOk(s, s.tasks[u], cfg);
      }
    }
  }

  /** Inside the window the counter is over the maximum, so a bump there would start
      a second rollover. */
  lemma BumpOutsideWindow(s: State, t: nat, cfg: Config)
    requires TasksOk(s, cfg) && Enabled(s, Step(t)) && s.tasks[t].Loaded? && Disciplined(s, Step(t), cfg)
    ensures !InWindow(s) && s.tasks[t].prefix == s.current
  {
    forall u | u in s.tasks ensures !s.tasks[u].RollClearNext? && !s.tasks[u].RollStoreCounter? {
      if s.tasks[u].RollClearNext? || s.tasks[u].RollStoreCounter? {
        assert PcOk(s, s.tasks[u], cfg);
        var s' := Next(s, Step(t), cfg);
        assert t in s'.tasks && u in s'.tasks && Renewing(s'.tasks[u]) && Renewing(s'.tasks[t]);
      }
    }
  }

  lemma BumpKeepsHistory(s: State, t: nat, cfg: Config)
    requires RegistersOk(s) && HistoryOk(s, cfg) && Enabled(s, Step(t)) && s.tasks[t].Loaded?
    requires !InWindow(s) && s.current != 0 && s.tasks[t].prefix == s.current
    requires !InWindow(Next(s, Step(t), cfg))
    ensures HistoryOk(Next(s, Step(t), cfg), cfg)
  {
    var s' := Next(s, Step(t), cfg);
    var b := Block(s.current, s.counter + 1);
    assert !IssuedExactly(s, b, cfg);
    AppendKeepsDistinct(s.issued, b);
    forall c ensures c in s'.issued <==> IssuedExactly(s', c, cfg) {
      assert c in s.issued <==> IssuedExactly(s, c, cfg);
    }
  }

  lemma InitKeepsInv(s: State, t: nat, cfg: Config)
    requires Inv(s, cfg) && Enabled(s, Step(t)) && Disciplined(s, Step(t), cfg)
    requires s.tasks[t].InitStorePrefix? || s.tasks[t].InitStoreCounter?
    ensures Inv(Next(s, Step(t), cfg), cfg)
  {
    var s' := Next(s, Step(t), cfg);
    SameWindow(s, s', t);
    if s.tasks[t].InitStoreCounter? {
      var b := Block(s.current, 1);
      assert !IssuedExactly(s, b, cfg);
      AppendKeepsDistinct(s.issued, b);
      assert !InWindow(s);
    }
  }

  lemma RollKeepsInv(s: State, t: nat, cfg: Config)
    requires Inv(s, cfg) && Enabled(s, Step(t)) && Disciplined(s, Step(t), cfg)
    requires s.tasks[t].RollStorePrefix? || s.tasks[t].RollClearNext?
    ensures Inv(Next(s, Step(t), cfg), cfg)
  {
    var s' := Next(s, Step(t), cfg);
    assert s'.tasks[t].RollClearNext? || s'.tasks[t].RollStoreCounter?;
    assert InWindow(s');
    if s.tasks[t].RollStorePrefix? {
      assert !InWindow(s) && !NextUncleared(s);
      assert NextUncleared(s');
    }
  }

  lemma ResetKeepsInv(s: State, t: nat, cfg: Config)
    requires Inv(s, cfg) && Enabled(s, Step(t)) && Disciplined(s, Step(t), cfg)
    requires s.tasks[t].RollStoreCounter?
    ensures Inv(Next(s, Step(t), cfg), cfg)
  {
    var s' := Next(s, Step(t), cfg);
    var b := Block(s.current, 1);
    assert InWindow(s) && !InWindow(s') && !NextUncleared(s);
    assert !IssuedExactly(s, b, cfg);
    AppendKeepsDistinct(s.issued, b);
  }

  lemma PollKeepsInv(s: State, t: nat, cfg: Config)
    requires Inv(s, cfg) && Enabled(s, Step(t)) && Disciplined(s, Step(t), cfg)
    requires s.tasks[t].Poll?
    ensures Inv(Next(s, Step(t), cfg), cfg)
  {
    var s' := Next(s, Step(t), cfg);
    SameWindow(s, s', t);
    KeepHistory(s, s', cfg);
    assert PcOk(s, s.tasks[t], cfg);
    if s.next != 0 {
      OnlyRenewing(s, t);
      forall u | u in s.tasks && u != t ensures Held(s.tasks[u]) != s.next {
        assert PcOk(s, s.tasks[u], cfg);
      }
    }
    MoveTask(s, s', t, cfg);
  }

  /** While `t` polls nobody else is renewing, so `next_prefix` is not stale. */
  lemma OnlyRenewing(s: State, t: nat)
    requires OneRenewing(s) && t in s.tasks && Renewing(s.tasks[t])
    requires !s.tasks[t].RollClearNext?
    ensures !NextUncleared(s)
    ensures forall u :: u in s.tasks && u != t ==> !Renewing(s.tasks[u])
  {
  }

  lemma PrefetchCheckKeepsInv(s: State, t: nat, cfg: Config)
    requires Inv(s, cfg) && Enabled(s, Step(t)) && Disciplined(s, Step(t), cfg)
    requires s.tasks[t].RollClearRequested? || s.tasks[t].CheckPrefetch?
    ensures Inv(Next(s, Step(t), cfg), cfg)
  {
    var s' := Next(s, Step(t), cfg);
    SameWindow(s, s', t);
    KeepHistory(s, s', cfg);
    assert PcOk(s, s.tasks[t], cfg);
    MoveTask(s, s', t, cfg);
  }

  lemma PrefetchStoreKeepsInv(s: State, t: nat, cfg: Config)
    requires Inv(s, cfg) && Enabled(s, Step(t)) && Disciplined(s, Step(t), cfg)
    requires s.tasks[t].PrefetchStore?
    ensures Inv(Next(s, Step(t), cfg), cfg)
  {
    var s' := Next(s, Step(t), cfg);
    SameWindow(s, s', t);
    KeepHistory(s, s', cfg);
    assert PcOk(s, s.tasks[t], cfg);
    assert Held(s.tasks[t]) == s'.next != 0;
  }

  lemma NextKeepsInv(s: State, e: Event, cfg: Config)
    requires Inv(s, cfg) && Enabled(s, e) && Disciplined(s, e, cfg)
    ensures Inv(Next(s, e, cfg), cfg)
  {
    match e
    case Begin(t) => BeginKeepsInv(s, t, cfg);
    case Fetched(t, v) => FetchedKeepsInv(s, t, v, cfg);
    case Step(t) =>
      match s.tasks[t]
      case Loaded(_) => BumpKeepsInv(s, t, cfg);
      case InitStorePrefix(_) => InitKeepsInv(s, t, cfg);
      case InitStoreCounter(_) => InitKeepsInv(s, t, cfg);
      case RollStorePrefix(_) => RollKeepsInv(s, t, cfg);
      case RollClearNext(_) => RollKeepsInv(s, t, cfg);
      case RollStoreCounter(_) => ResetKeepsInv(s, t, cfg);
      case Poll(_) => PollKeepsInv(s, t, cfg);
      case PrefetchStore(_, _) => PrefetchStoreKeepsInv(s, t, cfg);
      case _ => PrefetchCheckKeepsInv(s, t, cfg);
  }

  lemma {:induction false} RunKeepsInv(s: State, es: seq<Event>, cfg: Config)
    requires Inv(s, cfg) && Runs(s, es, cfg) && AllDisciplined(s, es, cfg)
    ensures Inv(Exec(s, es, cfg), cfg)
    decreases |es|
  {
    if es != [] {
      NextKeepsInv(s, es[0], cfg);
      RunKeepsInv(Next(s, es[0], cfg), es[1..], cfg);
    }
  }

  // ------------------------------------------------------------ main results

  /** Over any disciplined run, however prefetches, failures and fallbacks are ordered:
      no block id is issued twice, and none is skipped -- every replaced block was
      used up completely before the next one began. */
  lemma BlockIdsExact(es: seq<Event>, cfg: Config)
    requires 1 <= cfg.suffixMax && Runs(INITIAL, es, cfg) && AllDisciplined(INITIAL, es, cfg)
    ensures var s := Exec(INITIAL, es, cfg);
            && Distinct(s.issued)
            && (forall p, k :: p in s.retired ==> (Block(p, k) in s.issued <==> 1 <= k <= cfg.suffixMax))
            && (forall b :: b in s.issued ==> b.prefix in s.drawn && 1 <= b.suffix <= cfg.suffixMax)
  {
    InitialInv(cfg);
    RunKeepsInv(INITIAL, es, cfg);
    var s := Exec(INITIAL, es, cfg);
    forall p, k | p in s.retired ensures Block(p, k) in s.issued <==> 1 <= k <= cfg.suffixMax {
      assert Block(p, k) in s.issued <==> IssuedExactly(s, Block(p, k), cfg);
    }
  }

  /** The numbers handed to callers are pairwise distinct as long as they fit. */
  lemma BlockTicketsDistinct(es: seq<Event>, cfg: Config, i: nat, j: nat)
    requires 1 <= cfg.suffixMax && Runs(INITIAL, es, cfg) && AllDisciplined(INITIAL, es, cfg)
    requires i < j < |Exec(INITIAL, es, cfg).issued|
    requires var q, m := Exec(INITIAL, es, cfg).issued, SuffixMultiplier(cfg.suffixMax);
             Fits(q[i].prefix, q[i].suffix, m) && Fits(q[j].prefix, q[j].suffix, m)
    ensures var q, m := Exec(INITIAL, es, cfg).issued, SuffixMultiplier(cfg.suffixMax);
            BlockTicket(q[i].prefix, q[i].suffix, m) != BlockTicket(q[j].prefix, q[j].suffix, m)
  {
    BlockIdsExact(es, cfg);
    var q := Exec(INITIAL, es, cfg).issued;
    assert q[i] in q && q[j] in q && q[i] != q[j];
    TicketInjective(q[i].prefix, q[i].suffix, q[j].prefix, q[j].suffix, cfg.suffixMax);
  }

  // ------------------------------------------------------------ prefetches

  /** The step makes its call prefetch. */
  ghost predicate StartsPrefetch(s: State, e: Event, cfg: Config)
    requires Enabled(s, e)
  {
    e.Step? && s.tasks[e.task].CheckPrefetch? && Next(s, e, cfg).tasks.Keys == s.tasks.Keys
  }

  /** The step ends a rollover. */
  ghost predicate EndsRollover(s: State, e: Event)
    requires Enabled(s, e)
  {
    e.Step? && s.tasks[e.task].RollClearRequested?
  }

  ghost function Prefetches(s: State, es: seq<Event>, cfg: Config): nat
    requires Runs(s, es, cfg)
    decreases |es|
  {
    if es == [] then 0
    else (if StartsPrefetch(s, es[0], cfg) then 1 else 0) + Prefetches(Next(s, es[0], cfg), es[1..], cfg)
  }

  ghost function Rollovers(s: State, es: seq<Event>, cfg: Config): nat
    requires Runs(s, es, cfg)
    decreases |es|
  {
    if es == [] then 0
    else (if EndsRollover(s, es[0]) then 1 else 0) + Rollovers(Next(s, es[0], cfg), es[1..], cfg)
  }

  lemma RequestedAfter(s: State, e: Event, cfg: Config)
    requires Enabled(s, e)
    ensures StartsPrefetch(s, e, cfg) ==> !s.requested && Next(s, e, cfg).requested && !EndsRollover(s, e)
    ensures !StartsPrefetch(s, e, cfg) && !EndsRollover(s, e) ==> Next(s, e, cfg).requested == s.requested
  {
    if e.Step? && s.tasks[e.task].CheckPrefetch? {
      assert e.task in s.tasks.Keys && e.task !in Return(s, e.task).tasks.Keys;
    }
  }

  /** At most one prefetch per block: over any run, disciplined or not, one more than the
      rollovers it completes. */
  lemma {:induction false} OnePrefetchPerBlock(s: State, es: seq<Event>, cfg: Config)
    requires Runs(s, es, cfg)
    ensures Prefetches(s, es, cfg) + (if s.requested then 1 else 0) <= Rollovers(s, es, cfg) + 1
    decreases |es|
  {
    if es != [] {
      RequestedAfter(s, es[0], cfg);
      OnePrefetchPerBlock(Next(s, es[0], cfg), es[1..], cfg);
    }
  }

  // ------------------------------------- each condition of the discipline is needed

  lemma RunTwo(s: State, e: Event, f: Event, cfg: Config)
    requires Enabled(s, e) && Enabled(Next(s, e, cfg), f)
    ensures Runs(s, [e, f], cfg) && Exec(s, [e, f], cfg) == Next(Next(s, e, cfg), f, cfg)
  {
    var s1 := Next(s, e, cfg);
    assert [f][1..] == [] && [e, f][1..] == [f];
    assert Runs(Next(s1, f, cfg), [], cfg);
    assert Runs(s1, [f], cfg) && Exec(s1, [f], cfg) == Next(s1, f, cfg);
  }

  lemma RunOne(s: State, e: Event, cfg: Config)
    requires Enabled(s, e)
    ensures Runs(s, [e], cfg) && Exec(s, [e], cfg) == Next(s, e, cfg)
    ensures Disciplined(s, e, cfg) ==> AllDisciplined(s, [e], cfg)
  {
  }

  /** A counter reset while another call still holds an older prefix: if that call bumps
      next, it repeats an id -- unless blocks have a single id. */
  lemma StaleLoadRepeats(s: State, t: nat, u: nat, cfg: Config)
    requires Inv(s, cfg) && t in s.tasks && u in s.tasks
    requires s.tasks[t].RollStoreCounter? && s.tasks[u].Loaded? && s.tasks[u].prefix != s.tasks[t].fetched
    ensures Runs(s, [Step(t), Step(u)], cfg)
    ensures Distinct(Exec(s, [Step(t), Step(u)], cfg).issued) <==> cfg.suffixMax == 1
  {
    var n, q := s.tasks[t].fetched, s.tasks[u].prefix;
    assert PcOk(s, s.tasks[t], cfg) && PcOk(s, s.tasks[u], cfg);
    var s1 := Next(s, Step(t), cfg);
    var s2 := Next(s1, Step(u), cfg);
    RunTwo(s, Step(t), Step(u), cfg);
    assert InWindow(s);
    assert !IssuedExactly(s, Block(n, 1), cfg);
    AppendKeepsDistinct(s.issued, Block(n, 1));
    if cfg.suffixMax >= 2 {
      assert IssuedExactly(s, Block(q, 2), cfg);
      var i :| 0 <= i < |s.issued| && s.issued[i] == Block(q, 2);
      assert s2.issued[i] == s2.issued[|s2.issued| - 1];
    }
  }

  /** A bump between the two stores of an initialisation takes the id that the
      initialising call is about to take. */
  lemma InitWindowRepeats(s: State, t: nat, u: nat, cfg: Config)
    requires Inv(s, cfg) && t in s.tasks && u in s.tasks
    requires s.tasks[t].InitStoreCounter? && s.tasks[u].Loaded?
    ensures Runs(s, [Step(u), Step(t)], cfg)
    ensures !Distinct(Exec(s, [Step(u), Step(t)], cfg).issued)
  {
    assert PcOk(s, s.tasks[t], cfg) && PcOk(s, s.tasks[u], cfg);
    assert !InWindow(s);
    var s1 := Next(s, Step(u), cfg);
    var s2 := Next(s1, Step(t), cfg);
    RunTwo(s, Step(u), Step(t), cfg);
    assert s2.issued[|s.issued|] == s2.issued[|s.issued| + 1];
  }

  /** Two calls that roll over together read the same prefetched prefix, and both
      issue its first id. */
  lemma DoubleRolloverRepeats(s: State, t: nat, u: nat, cfg: Config)
    requires t in s.tasks && u in s.tasks && t != u && s.tasks[t].Poll? && s.tasks[u].Poll? && s.next != 0
    ensures var es := [Step(t), Step(u), Step(t), Step(t), Step(t), Step(u), Step(u), Step(u)];
            Runs(s, es, cfg) && !Distinct(Exec(s, es, cfg).issued)
  {
    var s2 := Next(Next(s, Step(t), cfg), Step(u), cfg);
    RunTwo(s, Step(t), Step(u), cfg);
    ResetSteps(s2, t, s.next, cfg);
    var es3 := [Step(t), Step(t), Step(t)];
    var s5 := Exec(s2, es3, cfg);
    var fs3 := [Step(u), Step(u), Step(u)];
    ResetSteps(s5, u, s.next, cfg);
    RunsConcat(s2, es3, fs3, cfg);
    RunsConcat(s, [Step(t), Step(u)], es3 + fs3, cfg);
    assert [Step(t), Step(u)] + (es3 + fs3)
        == [Step(t), Step(u), Step(t), Step(t), Step(t), Step(u), Step(u), Step(u)];
    var q := Exec(s5, fs3, cfg).issued;
    assert q == s.issued + [Block(s.next, 1)] + [Block(s.next, 1)];
    assert q[|s.issued|] == q[|s.issued| + 1];
  }

  lemma ResetSteps(s: State, t: nat, v: int, cfg: Config)
    requires t in s.tasks && s.tasks[t] == RollStorePrefix(v)
    ensures var es := [Step(t), Step(t), Step(t)];
            && Runs(s, es, cfg)
            && Exec(s, es, cfg).issued == s.issued + [Block(v, 1)]
            && (forall u :: u in s.tasks && u != t ==>
                  u in Exec(s, es, cfg).tasks && Exec(s, es, cfg).tasks[u] == s.tasks[u])
  {
    var s1 := Next(s, Step(t), cfg);
    var s2 := Next(s1, Step(t), cfg);
    RunTwo(s, Step(t), Step(t), cfg);
    RunOne(s2, Step(t), cfg);
    RunsConcat(s, [Step(t), Step(t)], [Step(t)], cfg);
    assert [Step(t), Step(t)] + [Step(t)] == [Step(t), Step(t), Step(t)];
  }

  lemma {:induction false} RunsConcat(s: State, es: seq<Event>, fs: seq<Event>, cfg: Config)
    requires Runs(s, es, cfg) && Runs(Exec(s, es, cfg), fs, cfg)
    ensures Runs(s, es + fs, cfg) && Exec(s, es + fs, cfg) == Exec(Exec(s, es, cfg), fs, cfg)
    ensures AllDisciplined(s, es, cfg) && AllDisciplined(Exec(s, es, cfg), fs, cfg)
            ==> AllDisciplined(s, es + fs, cfg)
    decreases |es|
  {
    if es == [] {
      assert es + fs == fs;
    } else {
      assert (es + fs)[1..] == es[1..] + fs;
      RunsConcat(Next(s, es[0], cfg), es[1..], fs, cfg);
    }
  }

  // ------------------------------------- runs from the start that break one part

  /** The three parts of the discipline. */
  datatype Part = OneAtATime | NoStaleReset | NoBumpInWindow

  /** The step keeps the other two parts. */
  ghost predicate KeepsOthers(s: State, e: Event, cfg: Config, broken: Part)
    requires Enabled(s, e)
  {
    && (broken == OneAtATime || OneRenewing(Next(s, e, cfg)))
    && (broken == NoStaleReset || ResetIsClean(s, e))
    && (broken == NoBumpInWindow || BumpIsClean(s, e))
  }

  ghost predicate AllKeepOthers(s: State, es: seq<Event>, cfg: Config, broken: Part)
    requires Runs(s, es, cfg)
    decreases |es|
  {
    es == [] || (KeepsOthers(s, es[0], cfg, broken) && AllKeepOthers(Next(s, es[0], cfg), es[1..], cfg, broken))
  }

  /** A run from the initial state that breaks at most one part of the discipline. */
  ghost predicate Leads(es: seq<Event>, s: State, cfg: Config, broken: Part) {
    Runs(INITIAL, es, cfg) && Exec(INITIAL, es, cfg) == s && AllKeepOthers(INITIAL, es, cfg, broken)
  }

  lemma {:induction false} KeepConcat(s: State, es: seq<Event>, e: Event, cfg: Config, broken: Part)
    requires Runs(s, es, cfg) && Enabled(Exec(s, es, cfg), e)
    requires AllKeepOthers(s, es, cfg, broken) && KeepsOthers(Exec(s, es, cfg), e, cfg, broken)
    ensures Runs(s, es + [e], cfg) && AllKeepOthers(s, es + [e], cfg, broken)
    ensures Exec(s, es + [e], cfg) == Next(Exec(s, es, cfg), e, cfg)
    decreases |es|
  {
    if es == [] {
      assert es + [e] == [e] && [e][1..] == [];
      assert Runs(Next(s, e, cfg), [], cfg);
    } else {
      assert (es + [e])[1..] == es[1..] + [e];
      KeepConcat(Next(s, es[0], cfg), es[1..], e, cfg, broken);
    }
  }

  lemma Then(es: seq<Event>, s: State, e: Event, cfg: Config, broken: Part) returns (es': seq<Event>, s': State)
    requires Leads(es, s, cfg, broken) && Enabled(s, e) && KeepsOthers(s, e, cfg, broken)
    ensures Leads(es', s', cfg, broken) && s' == Next(s, e, cfg)
  {
    KeepConcat(INITIAL, es, e, cfg, broken);
    es', s' := es + [e], Next(s, e, cfg);
  }

  const TRACE_CONFIG := Config(9, 7)
  const SMALL_CONFIG := Config(2, 2)

  /** Two calls find no prefix; the first one's block is begun. */
  lemma TwoInits1() returns (es: seq<Event>, s: State)
    ensures Leads(es, s, TRACE_CONFIG, OneAtATime)
    ensures s ==
      State(0, 0, 0, false, {7}, {}, [], map[0 := InitStorePrefix(7), 1 := InitFetch])
  {
    es, s := [], INITIAL;
    es, s := Then(es, s, Begin(0), TRACE_CONFIG, OneAtATime);
    es, s := Then(es, s, Begin(1), TRACE_CONFIG, OneAtATime);
    es, s := Then(es, s, Fetched(0, 7), TRACE_CONFIG, OneAtATime);
  }

  lemma TwoInits2() returns (es: seq<Event>, s: State)
    ensures Leads(es, s, TRACE_CONFIG, OneAtATime)
    ensures s ==
      State(7, 1, 0, false, {7}, {}, [Block(7, 1)], map[0 := CheckPrefetch(Block(7, 1)), 1 := InitFetch])
  {
    es, s := TwoInits1();
    es, s := Then(es, s, Step(0), TRACE_CONFIG, OneAtATime);
    es, s := Then(es, s, Step(0), TRACE_CONFIG, OneAtATime);
  }

  lemma TwoInits3() returns (es: seq<Event>, s: State)
    ensures Leads(es, s, TRACE_CONFIG, OneAtATime)
    ensures s ==
      State(7, 2, 0, false, {7}, {}, [Block(7, 1), Block(7, 2)],
        map[0 := CheckPrefetch(Block(7, 1)), 1 := InitFetch, 2 := CheckPrefetch(Block(7, 2))])
  {
    es, s := TwoInits2();
    es, s := Then(es, s, Begin(2), TRACE_CONFIG, OneAtATime);
    es, s := Then(es, s, Step(2), TRACE_CONFIG, OneAtATime);
  }

  lemma TwoInits4() returns (es: seq<Event>, s: State)
    ensures Leads(es, s, TRACE_CONFIG, OneAtATime)
    ensures s ==
      State(7, 2, 0, false, {7, 8}, {}, [Block(7, 1), Block(7, 2)],
        map[0 := CheckPrefetch(Block(7, 1)), 1 := InitStorePrefix(8), 2 := CheckPrefetch(Block(7, 2)), 3 := Loaded(7)])
  {
    es, s := TwoInits3();
    es, s := Then(es, s, Begin(3), TRACE_CONFIG, OneAtATime);
    es, s := Then(es, s, Fetched(1, 8), TRACE_CONFIG, OneAtATime);
  }

  /** Two calls initialise together: a third call's bump repeats an id, with no bump inside
      an initialisation. */
  lemma TwoInitialisations() returns (es: seq<Event>, s: State)
    ensures Leads(es, s, TRACE_CONFIG, OneAtATime) && !Distinct(s.issued)
  {
    es, s := TwoInits4();
    es, s := Then(es, s, Step(1), TRACE_CONFIG, OneAtATime);
    es, s := Then(es, s, Step(1), TRACE_CONFIG, OneAtATime);
    es, s := Then(es, s, Step(3), TRACE_CONFIG, OneAtATime);
    assert s.issued[1] == s.issued[3];
  }

  /** The first block is used up while a further call holds its prefix. */
  lemma UsedUp1(broken: Part) returns (es: seq<Event>, s: State)
    ensures Leads(es, s, SMALL_CONFIG, broken)
    ensures s ==
      State(7, 0, 0, false, {7}, {}, [], map[0 := InitStoreCounter(7)])
  {
    es, s := [], INITIAL;
    es, s := Then(es, s, Begin(0), SMALL_CONFIG, broken);
    es, s := Then(es, s, Fetched(0, 7), SMALL_CONFIG, broken);
    es, s := Then(es, s, Step(0), SMALL_CONFIG, broken);
  }

  lemma UsedUp2(broken: Part) returns (es: seq<Event>, s: State)
    ensures Leads(es, s, SMALL_CONFIG, broken)
    ensures s ==
      State(7, 1, 0, false, {7}, {}, [Block(7, 1)], map[])
  {
    es, s := UsedUp1(broken);
    es, s := Then(es, s, Step(0), SMALL_CONFIG, broken);
    es, s := Then(es, s, Step(0), SMALL_CONFIG, broken);
  }

  lemma UsedUp3(broken: Part) returns (es: seq<Event>, s: State)
    ensures Leads(es, s, SMALL_CONFIG, broken)
    ensures s ==
      State(7, 1, 0, false, {7}, {}, [Block(7, 1)], map[1 := Loaded(7), 2 := Loaded(7)])
  {
    es, s := UsedUp2(broken);
    es, s := Then(es, s, Begin(1), SMALL_CONFIG, broken);
    es, s := Then(es, s, Begin(2), SMALL_CONFIG, broken);
  }

  lemma UsedUp4(broken: Part) returns (es: seq<Event>, s: State)
    ensures Leads(es, s, SMALL_CONFIG, broken)
    ensures s ==
      State(7, 1, 0, false, {7}, {}, [Block(7, 1)], map[1 := Loaded(7), 2 := Loaded(7), 3 := Loaded(7)])
  {
    es, s := UsedUp3(broken);
    es, s := Then(es, s, Begin(3), SMALL_CONFIG, broken);
  }

  lemma UsedUp5(broken: Part) returns (es: seq<Event>, s: State)
    ensures Leads(es, s, SMALL_CONFIG, broken)
    ensures s ==
      State(7, 2, 0, false, {7}, {}, [Block(7, 1), Block(7, 2)],
        map[1 := CheckPrefetch(Block(7, 2)), 2 := Loaded(7), 3 := Loaded(7)])
  {
    es, s := UsedUp4(broken);
    es, s := Then(es, s, Step(1), SMALL_CONFIG, broken);
  }

  lemma UsedUp6(broken: Part) returns (es: seq<Event>, s: State)
    ensures Leads(es, s, SMALL_CONFIG, broken)
    ensures s ==
      State(7, 3, 0, false, {7}, {}, [Block(7, 1), Block(7, 2)],
        map[1 := CheckPrefetch(Block(7, 2)), 2 := Poll(0), 3 := Loaded(7)])
  {
    es, s := UsedUp5(broken);
    es, s := Then(es, s, Step(2), SMALL_CONFIG, broken);
  }

  lemma UsedUp7(broken: Part) returns (es: seq<Event>, s: State)
    ensures Leads(es, s, SMALL_CONFIG, broken)
    ensures s ==
      State(7, 3, 0, true, {7}, {}, [Block(7, 1), Block(7, 2)],
        map[1 := PrefetchFetch(Block(7, 2)), 2 := Poll(0), 3 := Loaded(7)])
  {
    es, s := UsedUp6(broken);
    es, s := Then(es, s, Step(1), SMALL_CONFIG, broken);
  }

  lemma UsedUp8(broken: Part) returns (es: seq<Event>, s: State)
    ensures Leads(es, s, SMALL_CONFIG, broken)
    ensures s ==
      State(7, 3, 0, true, {7, 8}, {}, [Block(7, 1), Block(7, 2)],
        map[1 := PrefetchStore(Block(7, 2), 8), 2 := Poll(0), 3 := Loaded(7)])
  {
    es, s := UsedUp7(broken);
    es, s := Then(es, s, Fetched(1, 8), SMALL_CONFIG, broken);
  }

  lemma UsedUp9(broken: Part) returns (es: seq<Event>, s: State)
    ensures Leads(es, s, SMALL_CONFIG, broken)
    ensures s ==
      State(7, 3, 8, true, {7, 8}, {}, [Block(7, 1), Block(7, 2)], map[2 := Poll(0), 3 := Loaded(7)])
  {
    es, s := UsedUp8(broken);
    es, s := Then(es, s, Step(1), SMALL_CONFIG, broken);
  }

  lemma RollsOver1() returns (es: seq<Event>, s: State)
    ensures Leads(es, s, SMALL_CONFIG, NoStaleReset)
    ensures s ==
      State(7, 3, 8, true, {7, 8}, {}, [Block(7, 1), Block(7, 2)], map[2 := RollStorePrefix(8), 3 := Loaded(7)])
  {
    es, s := UsedUp9(NoStaleReset);
    es, s := Then(es, s, Step(2), SMALL_CONFIG, NoStaleReset);
  }

  lemma RollsOver2() returns (es: seq<Event>, s: State)
    ensures Leads(es, s, SMALL_CONFIG, NoStaleReset)
    ensures s ==
      State(8, 3, 8, true, {7, 8}, {7}, [Block(7, 1), Block(7, 2)], map[2 := RollClearNext(8), 3 := Loaded(7)])
  {
    es, s := RollsOver1();
    es, s := Then(es, s, Step(2), SMALL_CONFIG, NoStaleReset);
  }

  lemma RollsOver() returns (es: seq<Event>, s: State)
    ensures Leads(es, s, SMALL_CONFIG, NoStaleReset)
    ensures s ==
      State(8, 3, 0, true, {7, 8}, {7}, [Block(7, 1), Block(7, 2)], map[2 := RollStoreCounter(8), 3 := Loaded(7)])
  {
    es, s := RollsOver2();
    es, s := Then(es, s, Step(2), SMALL_CONFIG, NoStaleReset);
  }

  /** A counter reset finds a call that has loaded the former prefix. */
  lemma ResetOverStaleLoad() returns (es: seq<Event>, s: State)
    ensures Leads(es, s, SMALL_CONFIG, NoStaleReset) && !Distinct(s.issued)
  {
    es, s := RollsOver();
    es, s := Then(es, s, Step(2), SMALL_CONFIG, NoStaleReset);
    es, s := Then(es, s, Step(3), SMALL_CONFIG, NoStaleReset);
    assert s.issued[1] == s.issued[3];
  }

  /** Two calls roll over together on one prefetched prefix. */
  lemma TwoRollovers() returns (es: seq<Event>)
    ensures Runs(INITIAL, es, SMALL_CONFIG) && !Distinct(Exec(INITIAL, es, SMALL_CONFIG).issued)
  {
    var s;
    es, s := UsedUp9(OneAtATime);
    es, s := Then(es, s, Step(3), SMALL_CONFIG, OneAtATime);
    DoubleRolloverRepeats(s, 2, 3, SMALL_CONFIG);
    var fs := [Step(2), Step(3), Step(2), Step(2), Step(2), Step(3), Step(3), Step(3)];
    RunsConcat(INITIAL, es, fs, SMALL_CONFIG);
    es := es + fs;
  }

  lemma LoadedEarly1() returns (es: seq<Event>, s: State)
    ensures Leads(es, s, TRACE_CONFIG, NoBumpInWindow)
    ensures s ==
      State(0, 0, 0, false, {7}, {}, [], map[0 := InitStorePrefix(7)])
  {
    es, s := [], INITIAL;
    es, s := Then(es, s, Begin(0), TRACE_CONFIG, NoBumpInWindow);
    es, s := Then(es, s, Fetched(0, 7), TRACE_CONFIG, NoBumpInWindow);
  }

  lemma LoadedEarly2() returns (es: seq<Event>, s: State)
    ensures Leads(es, s, TRACE_CONFIG, NoBumpInWindow)
    ensures s ==
      State(7, 0, 0, false, {7}, {}, [], map[0 := InitStoreCounter(7), 1 := Loaded(7)])
  {
    es, s := LoadedEarly1();
    es, s := Then(es, s, Step(0), TRACE_CONFIG, NoBumpInWindow);
    es, s := Then(es, s, Begin(1), TRACE_CONFIG, NoBumpInWindow);
  }

  /** A call loads the prefix that another has just stored, and bumps before that one resets
      the counter: both return block id (7, 1). */
  lemma TwoTaskTrace() returns (es: seq<Event>, s: State)
    ensures Leads(es, s, TRACE_CONFIG, NoBumpInWindow) && s.issued == [Block(7, 1), Block(7, 1)]
  {
    es, s := LoadedEarly2();
    es, s := Then(es, s, Step(1), TRACE_CONFIG, NoBumpInWindow);
    es, s := Then(es, s, Step(0), TRACE_CONFIG, NoBumpInWindow);
  }

  /** Each part of the discipline is needed: for each there is a run from the initial state
      that keeps the other two at every step and issues an id twice. */
  lemma EachPartIsNeeded(broken: Part) returns (es: seq<Event>, s: State, cfg: Config)
    ensures 1 <= cfg.threshold <= cfg.suffixMax && Leads(es, s, cfg, broken) && !Distinct(s.issued)
  {
    match broken
    case OneAtATime =>
      cfg := TRACE_CONFIG;
      es, s := TwoInitialisations();
    case NoStaleReset =>
      cfg := SMALL_CONFIG;
      es, s := ResetOverStaleLoad();
    case NoBumpInWindow =>
      cfg := TRACE_CONFIG;
      es, s := TwoTaskTrace();
      assert s.issued[0] == s.issued[1];
  }
}
