/** The Kafka consumer's leader lock: set-if-absent with a time to live, renewed
    without looking at who owns it, as a state machine with a clock in seconds. */
module LeaderLock {
  import opened Fates
  import opened Options

  const POLL_SECS: nat := 10

  /** `ttl` is the lease time, `delay` how late a renewal may land after its tick. */
  datatype Config = Config(ttl: nat, delay: nat)

  predicate ConfigOk(cfg: Config) {
    10 <= cfg.ttl
  }

  function Period(cfg: Config): nat {
    cfg.ttl / 2
  }

  datatype Lease = Lease(owner: nat, expires: int)

  /** `misses` counts renewals in a row that had no effect. */
  datatype Pod = Waiting(nextPoll: int) | Leader(nextTick: int, misses: nat) | Crashed

  datatype State = State(now: int, lock: Option<Lease>, pods: map<nat, Pod>)

  datatype Event =
    | Advance(seconds: nat)
    | Start(pod: nat)
    | Poll(pod: nat, fate: Fate)
    | Renew(pod: nat, fate: Fate)
    | Crash(pod: nat)

  predicate Free(s: State) {
    s.lock.Some? ==> s.lock.value.expires <= s.now
  }

  predicate IsLeader(s: State, p: nat) {
    p in s.pods && s.pods[p].Leader?
  }

  predicate IsWaiting(s: State, p: nat) {
    p in s.pods && s.pods[p].Waiting?
  }

  predicate Enabled(s: State, e: Event) {
    match e
    case Advance(_) => true
    case Start(p) => p !in s.pods
    case Poll(p, _) => IsWaiting(s, p) && s.pods[p].nextPoll <= s.now
    case Renew(p, _) => IsLeader(s, p) && s.pods[p].nextTick <= s.now
    case Crash(p) => p in s.pods
  }

  function Next(s: State, e: Event, cfg: Config): State
    requires Enabled(s, e)
  {
    match e
    case Advance(d) => s.(now := s.now + d)
    case Start(p) => s.(pods := s.pods[p := Waiting(s.now)])
    case Crash(p) => s.(pods := s.pods[p := Crashed])
    case Poll(p, fate) =>
      var lock := if Free(s) && !fate.Refused? then Some(Lease(p, s.now + cfg.ttl)) else s.lock;
      var pod := if Free(s) && fate.Done? then Leader(s.now, 0) else Waiting(s.now + POLL_SECS);
      s.(lock := lock, pods := s.pods[p := pod])
    case Renew(p, fate) =>
      var pod := s.pods[p];
      var lock := if fate.Refused? then s.lock else Some(Lease(p, s.now + cfg.ttl));
      var misses := if fate.Refused? then pod.misses + 1 else 0;
      s.(lock := lock, pods := s.pods[p := Leader(pod.nextTick + Period(cfg), misses)])
  }

  ghost predicate StepAt(states: seq<State>, events: seq<Event>, cfg: Config, i: nat)
    requires i < |events| < |states|
  {
    Enabled(states[i], events[i]) && states[i + 1] == Next(states[i], events[i], cfg)
  }

  /** A run as the sequence of its states. */
  ghost predicate IsRun(states: seq<State>, events: seq<Event>, cfg: Config) {
    |states| == |events| + 1 && forall i :: 0 <= i < |events| ==> StepAt(states, events, cfg, i)
  }

  ghost predicate Initial(s: State) {
    s.lock == None && s.pods == map[]
  }

  /** A poll takes the lock when it is free and the call is not refused, for one lease; the pod
      leads if and only if it also hears so, and otherwise polls again ten seconds later.
      So a lost answer takes the lock for nobody. */
  lemma PollOutcome(s: State, p: nat, fate: Fate, cfg: Config)
    requires Enabled(s, Poll(p, fate))
    ensures var s', free := Next(s, Poll(p, fate), cfg), s.lock == None || s.lock.value.expires <= s.now;
            && s'.lock == (if free && !fate.Refused? then Some(Lease(p, s.now + cfg.ttl)) else s.lock)
            && s'.pods[p] == (if free && fate.Done? then Leader(s.now, 0) else Waiting(s.now + 10))
  {
  }

  /** A renewal takes the lock whoever holds it, unless it is refused; the next tick is half a
      lease after this one in any case. */
  lemma RenewOutcome(s: State, p: nat, fate: Fate, cfg: Config)
    requires Enabled(s, Renew(p, fate))
    ensures var s' := Next(s, Renew(p, fate), cfg);
            && s'.lock == (if fate.Refused? then s.lock else Some(Lease(p, s.now + cfg.ttl)))
            && IsLeader(s', p) && s'.pods[p].nextTick == s.pods[p].nextTick + cfg.ttl / 2
            && s'.pods[p].misses == if fate.Refused? then s.pods[p].misses + 1 else 0
  {
  }

  // ------------------------------------------------------------ at most one leader

  /** A live leader whose lease has run out. */
  ghost predicate Lapsed(s: State) {
    Free(s) && exists p :: IsLeader(s, p)
  }

  ghost predicate OneLeader(s: State) {
    forall p, q :: IsLeader(s, p) && IsLeader(s, q) ==> p == q
  }

  ghost predicate OwnerIsLeader(s: State) {
    forall p :: IsLeader(s, p) ==> s.lock.Some? && s.lock.value.owner == p
  }

  /** Bounds that every store call and every sleep respects. */
  ghost predicate Bounded(s: State, cfg: Config) {
    && (s.lock.Some? ==> s.lock.value.expires <= s.now + cfg.ttl)
    && (forall p :: IsWaiting(s, p) ==> s.pods[p].nextPoll <= s.now + POLL_SECS)
  }

  ghost predicate Inv(s: State, cfg: Config) {
    OneLeader(s) && OwnerIsLeader(s) && Bounded(s, cfg)
  }

  lemma NextKeepsInv(s: State, e: Event, cfg: Config)
    requires Inv(s, cfg) && Enabled(s, e) && !Lapsed(s)
    ensures Inv(Next(s, e, cfg), cfg)
  {
    var s' := Next(s, e, cfg);
    assert Free(s) ==> forall p :: !IsLeader(s, p);
    forall p | IsLeader(s', p)
      ensures IsLeader(s, p) || (e.Poll? && p == e.pod && Free(s))
      ensures s'.lock.Some? && s'.lock.value.owner == p
    {
      match e
      case Renew(q, _) => assert IsLeader(s, q);
      case _ =>
    }
  }

  /** If no renewal ever comes after the lease it renews has run out, every reachable
      state has at most one live leader, and the store names that pod. */
  lemma {:induction false} AtMostOneLeader(states: seq<State>, events: seq<Event>, cfg: Config, n: nat)
    requires ConfigOk(cfg) && IsRun(states, events, cfg) && Initial(states[0]) && n <= |events|
    requires forall i :: 0 <= i < n ==> !Lapsed(states[i])
    ensures Inv(states[n], cfg)
  {
    if n > 0 {
      assert StepAt(states, events, cfg, n - 1);
      AtMostOneLeader(states, events, cfg, n - 1);
      NextKeepsInv(states[n - 1], events[n - 1], cfg);
    }
  }

  /** The hypothesis is exact: a due poll makes a second leader if and only if the
      lease of the first has run out; the renewal of the first then takes the lock back. */
  lemma SecondLeaderIff(s: State, p: nat, q: nat, cfg: Config)
    requires Inv(s, cfg) && IsLeader(s, p) && Enabled(s, Poll(q, Done))
    ensures var s' := Next(s, Poll(q, Done), cfg);
            && (!OneLeader(s') <==> Lapsed(s))
            && (Lapsed(s) && s.pods[p].nextTick <= s.now ==>
                  var s2 := Next(s', Renew(p, Done), cfg);
                  IsLeader(s2, q) && s2.lock.value.owner == p != q)
  {
    var s' := Next(s, Poll(q, Done), cfg);
    assert p != q && IsLeader(s', p);
    if Lapsed(s) {
      assert IsLeader(s', q);
    } else {
      NextKeepsInv(s, Poll(q, Done), cfg);
    }
  }

  // ------------------------------------------------------------ renewals land in time

  /** Every leader's due tick is served within the delay, after at most `k` misses. */
  ghost predicate Prompt(s: State, cfg: Config, k: nat) {
    forall p :: IsLeader(s, p) ==> s.now <= s.pods[p].nextTick + cfg.delay && s.pods[p].misses <= k
  }

  /** The lease of a leader lasts at least until this moment. */
  function LeaseFloor(pod: Pod, cfg: Config): int
    requires pod.Leader?
  {
    pod.nextTick - (pod.misses + 1) * Period(cfg) + cfg.ttl
  }

  ghost predicate LeaseOk(s: State, cfg: Config) {
    forall p :: IsLeader(s, p) ==> s.lock.Some? && LeaseFloor(s.pods[p], cfg) <= s.lock.value.expires
  }

  /** The tick period is half the lease, so `k` lost renewals and a delay are harmless
      exactly as long as they leave part of the lease. */
  predicate Tolerates(cfg: Config, k: nat) {
    (k + 1) * Period(cfg) + cfg.delay < cfg.ttl
  }

  lemma PromptIsNotLapsed(s: State, cfg: Config, k: nat)
    requires LeaseOk(s, cfg) && Prompt(s, cfg, k) && Tolerates(cfg, k)
    ensures !Lapsed(s)
  {
  }

  lemma NextKeepsLease(s: State, e: Event, cfg: Config)
    requires Inv(s, cfg) && LeaseOk(s, cfg) && Enabled(s, e) && !Lapsed(s)
    ensures LeaseOk(Next(s, e, cfg), cfg)
  {
  }

  /** With prompt ticks the safety hypothesis holds by itself: no run lapses. */
  lemma {:induction false} PromptRunsAreSafe(states: seq<State>, events: seq<Event>, cfg: Config, k: nat, n: nat)
    requires ConfigOk(cfg) && IsRun(states, events, cfg) && Initial(states[0]) && n <= |events|
    requires Tolerates(cfg, k) && forall i :: 0 <= i <= n ==> Prompt(states[i], cfg, k)
    ensures Inv(states[n], cfg) && LeaseOk(states[n], cfg) && !Lapsed(states[n])
  {
    if n > 0 {
      assert StepAt(states, events, cfg, n - 1);
      PromptRunsAreSafe(states, events, cfg, k, n - 1);
      NextKeepsInv(states[n - 1], events[n - 1], cfg);
      NextKeepsLease(states[n - 1], events[n - 1], cfg);
    }
    PromptIsNotLapsed(states[n], cfg, k);
  }

  /** One renewal without effect is survived only by an odd lease time and no delay:
      the next tick comes 2 * (ttl / 2) seconds after the last one that counted. */
  lemma OneMissLapsesIff(s: State, p: nat, cfg: Config)
    requires ConfigOk(cfg) && IsLeader(s, p) && s.pods[p].nextTick == s.now
    requires s.lock == Some(Lease(p, s.now - Period(cfg) + cfg.ttl))
    ensures var s1 := Next(s, Renew(p, Refused), cfg);
            var s2 := Next(s1, Advance(Period(cfg) + cfg.delay), cfg);
            s2.now == s2.pods[p].nextTick + cfg.delay
            && (Lapsed(s2) <==> cfg.ttl % 2 == 0 || 0 < cfg.delay)
  {
    var s1 := Next(s, Renew(p, Refused), cfg);
    var s2 := Next(s1, Advance(Period(cfg) + cfg.delay), cfg);
    assert IsLeader(s2, p);
  }

  const DEFAULT_CONFIG := Config(60, 0)

  /** A run from the beginning, with the default lease of 60 s and every tick on time: one
      renewal has no effect, and at the end two pods lead. */
  lemma OneMissMakesTwoLeaders() returns (states: seq<State>, events: seq<Event>)
    ensures IsRun(states, events, DEFAULT_CONFIG) && Initial(states[0])
    ensures forall i :: 0 <= i <= |events| ==> Prompt(states[i], DEFAULT_CONFIG, 1)
    ensures IsLeader(states[|events|], 0) && IsLeader(states[|events|], 1)
  {
    events := [Start(0), Poll(0, Done), Start(1), Renew(0, Done), Advance(30), Renew(0, Refused), Advance(30),
               Poll(1, Done)];
    states := [
      State(0, None, map[]),
      State(0, None, map[0 := Waiting(0)]),
      State(0, Some(Lease(0, 60)), map[0 := Leader(0, 0)]),
      State(0, Some(Lease(0, 60)), map[0 := Leader(0, 0), 1 := Waiting(0)]),
      State(0, Some(Lease(0, 60)), map[0 := Leader(30, 0), 1 := Waiting(0)]),
      State(30, Some(Lease(0, 60)), map[0 := Leader(30, 0), 1 := Waiting(0)]),
      State(30, Some(Lease(0, 60)), map[0 := Leader(60, 1), 1 := Waiting(0)]),
      State(60, Some(Lease(0, 60)), map[0 := Leader(60, 1), 1 := Waiting(0)]),
      State(60, Some(Lease(1, 120)), map[0 := Leader(60, 1), 1 := Leader(60, 0)])];
    forall i | 0 <= i < |events| ensures StepAt(states, events, DEFAULT_CONFIG, i) {
      assert i == 0 || i == 1 || i == 2 || i == 3 || i == 4 || i == 5 || i == 6 || i == 7;
    }
  }

  // ------------------------------------------------------------ failover

  /** No waiting pod sleeps past its poll. */
  ghost predicate Punctual(s: State) {
    forall p :: IsWaiting(s, p) ==> s.now <= s.pods[p].nextPoll
  }

  ghost predicate HasLeader(s: State) {
    exists p :: IsLeader(s, p)
  }

  /** By how much a poll of the free lock can put a failover off: one whose answer is lost
      takes the lock for nobody, and a refused one of `w` is repeated after its sleep. */
  function Setback(s: State, e: Event, cfg: Config, w: nat): nat {
    if !e.Poll? || !Free(s) || e.fate.Done? then 0
    else if e.fate.Refused? then if e.pod == w then POLL_SECS else 0
    else cfg.ttl + POLL_SECS
  }

  function Setbacks(states: seq<State>, events: seq<Event>, cfg: Config, w: nat, n: nat): nat
    requires n <= |events| < |states|
  {
    if n == 0 then 0
    else Setbacks(states, events, cfg, w, n - 1) + Setback(states[n - 1], events[n - 1], cfg, w)
  }

  /** The lock is free by `deadline` at the latest, and `w` polls by ten seconds after that. */
  ghost predicate Waits(s: State, w: nat, deadline: int) {
    && !HasLeader(s) && (s.lock.Some? ==> s.lock.value.expires <= deadline)
    && IsWaiting(s, w) && s.pods[w].nextPoll <= deadline + POLL_SECS
  }

  lemma NextWaits(s: State, e: Event, cfg: Config, w: nat, deadline: int)
    requires Waits(s, w, deadline) && Punctual(s) && Enabled(s, e) && e != Crash(w)
    ensures var s' := Next(s, e, cfg); HasLeader(s') || Waits(s', w, deadline + Setback(s, e, cfg, w))
  {
    var s' := Next(s, e, cfg);
    if e.Poll? && Free(s) && e.fate.Done? {
      assert IsLeader(s', e.pod);
    } else {
      assert !e.Renew?;
    }
  }

  ghost predicate LedBy(states: seq<State>, n: nat) {
    exists i :: 0 <= i <= n < |states| && HasLeader(states[i])
  }

  /** From any state without a live leader -- say, right after the leader crashed -- the
      lock is free within one lease, and a pod that keeps polling does not wait longer
      than one lease and one poll interval for somebody to lead, plus what its own refused
      polls and the lost answers of anybody cost. */
  lemma {:induction false} FailoverBound(states: seq<State>, events: seq<Event>, cfg: Config, w: nat, n: nat)
    requires IsRun(states, events, cfg) && n <= |events|
    requires Bounded(states[0], cfg) && !HasLeader(states[0]) && IsWaiting(states[0], w)
    requires forall i :: 0 <= i <= n ==> Punctual(states[i])
    requires forall i :: 0 <= i < n ==> events[i] != Crash(w)
    ensures var s, deadline := states[n], states[0].now + cfg.ttl + Setbacks(states, events, cfg, w, n);
            && (LedBy(states, n) || Waits(s, w, deadline))
            && (deadline <= s.now ==> LedBy(states, n) || Free(s))
            && (deadline + POLL_SECS < s.now ==> LedBy(states, n))
  {
    if n > 0 {
      assert StepAt(states, events, cfg, n - 1);
      FailoverBound(states, events, cfg, w, n - 1);
      if !LedBy(states, n - 1) {
        NextWaits(states[n - 1], events[n - 1], cfg, w,
                  states[0].now + cfg.ttl + Setbacks(states, events, cfg, w, n - 1));
        assert HasLeader(states[n]) ==> LedBy(states, n);
      }
    }
  }

  /** Only a crash ends leading. */
  lemma {:induction false} LeaderStays(states: seq<State>, events: seq<Event>, cfg: Config, p: nat, i: nat, n: nat)
    requires IsRun(states, events, cfg) && i <= n <= |events| && IsLeader(states[i], p)
    requires forall j :: i <= j < n ==> events[j] != Crash(p)
    ensures IsLeader(states[n], p)
    decreases n
  {
    if i < n {
      assert StepAt(states, events, cfg, n - 1);
      LeaderStays(states, events, cfg, p, i, n - 1);
    }
  }

  /** A crash leaves exactly the starting point of `FailoverBound`. */
  lemma CrashLeavesNoLeader(s: State, p: nat, cfg: Config)
    requires Inv(s, cfg) && IsLeader(s, p)
    ensures var s' := Next(s, Crash(p), cfg); Bounded(s', cfg) && !HasLeader(s')
    ensures forall w :: IsWaiting(s, w) ==> IsWaiting(Next(s, Crash(p), cfg), w)
  {
    var s' := Next(s, Crash(p), cfg);
    forall q ensures !IsLeader(s', q) {
      assert IsLeader(s', q) ==> IsLeader(s, q);
    }
  }
}
