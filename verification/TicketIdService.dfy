/** The service object: one call of `get_next_ticket_id_once` running without
    interference, proved to be a disciplined run of the step machine. */
module TicketIdService {
  import opened Int64
  import opened TicketIdFormat
  import opened TicketIdProtocol

  /** `s` is reached from `start` by the disciplined run `es`. */
  ghost predicate Reaches(start: State, es: seq<Event>, s: State, cfg: Config) {
    Runs(start, es, cfg) && AllDisciplined(start, es, cfg) && Exec(start, es, cfg) == s
  }

  /** Task 0 is the only call under way. */
  predicate Alone(s: State) {
    s.tasks.Keys <= {0}
  }

  lemma AloneIsDisciplined(s: State, e: Event, cfg: Config)
    requires Alone(s) && e.task == 0 && Enabled(s, e)
    ensures Alone(Next(s, e, cfg)) && Disciplined(s, e, cfg)
  {
  }

  /** Extends a run by one step of the only call. */
  lemma Extend(start: State, es: seq<Event>, s: State, e: Event, cfg: Config)
    requires Reaches(start, es, s, cfg) && Alone(s) && e.task == 0 && Enabled(s, e)
    ensures Reaches(start, es + [e], Next(s, e, cfg), cfg)
  {
    AloneIsDisciplined(s, e, cfg);
    RunOne(s, e, cfg);
    RunsConcat(start, es, [e], cfg);
  }

  class TicketIdService {
    const cfg: Config
    var currentPrefix: int
    var counter: int
    var nextPrefix: int
    var prefetchRequested: bool
    ghost var drawn: set<int>
    ghost var retired: set<int>
    ghost var issued: seq<Block>
    /** The run of the step machine so far, and the state it began in. */
    ghost var start: State
    ghost var run: seq<Event>

    ghost function View(tasks: map<nat, Pc>): State
      reads this
    {
      State(currentPrefix, counter, nextPrefix, prefetchRequested, drawn, retired, issued, tasks)
    }

    /** The fields are the registers of the machine after `run`. */
    ghost predicate At(tasks: map<nat, Pc>)
      reads this
    {
      Reaches(start, run, View(tasks), cfg)
    }

    ghost predicate Valid()
      reads this
    {
      1 <= cfg.suffixMax && start == INITIAL && At(map[])
    }

    /** What the sequence may answer: 0 for a failure, or a value it never gave. */
    ghost predicate Answer(v: int)
      reads this
    {
      v == 0 || (0 < v && v !in drawn)
    }

    constructor (cfg: Config)
      requires 1 <= cfg.suffixMax
      ensures Valid() && issued == [] && this.cfg == cfg
    {
      this.cfg := cfg;
      currentPrefix, counter, nextPrefix, prefetchRequested := 0, 0, 0, false;
      drawn, retired, issued := {}, {}, [];
      start, run := INITIAL, [];
    }

    /** `renewal` and `prefetch` are what the sequence would answer to the fetch of a
        new block and to a prefetch, `hash` the hash behind a fallback id.  The id is
        that of the next number of the block, or of the first of the next block, or the
        fallback when no block is to be had; it is never zero. */
    method GetNextTicketIdOnce(hash: int, renewal: int, prefetch: int) returns (id: int, fromBlock: bool)
      requires Valid() && 0 <= hash < TWO_64
      requires Answer(renewal) && Answer(prefetch) && (renewal == 0 || renewal != prefetch)
      modifies this
      ensures Valid() && old(run) <= run
      ensures fromBlock ==>
                var b := Block(currentPrefix, counter);
                && issued == old(issued) + [b] && b !in old(issued)
                && id == BlockTicket(currentPrefix, counter, SuffixMultiplier(cfg.suffixMax))
      ensures fromBlock ==>
                if old(currentPrefix) == 0 then (currentPrefix, counter) == (renewal, 1)
                else if old(counter) < cfg.suffixMax then
                  (currentPrefix, counter) == (old(currentPrefix), old(counter) + 1)
                else (currentPrefix, counter) == (if old(nextPrefix) != 0 then old(nextPrefix) else renewal, 1)
      ensures fromBlock ==>
                exists w :: IsLow64(w, currentPrefix * SuffixMultiplier(cfg.suffixMax) + counter) && IsAppended(w, id)
      ensures fromBlock <==> renewal != 0 || (old(currentPrefix) != 0
                                              && (old(counter) < cfg.suffixMax || old(nextPrefix) != 0))
      ensures !fromBlock ==> issued == old(issued) && exists w :: IsLocal(hash, w) && IsAppended(w, id)
      ensures id != 0
    {
      var prefix, suffix := NextBlockId(renewal);
      if prefix == 0 {
        FallbackNonZero(hash);
        LocalIdKeepsHash(hash);
        return AppendLastDigit1(LocalId(hash)), false;
      }
      ghost var b := Block(prefix, suffix);
      id := Combine(prefix, suffix, prefetch);
      LastIssuedIsFresh(b);
      assert issued == old(issued) + [b];
      return id, true;
    }

    /** The number of a block id; the prefetch comes first. */
    method Combine(prefix: int, suffix: int, prefetch: int) returns (id: int)
      requires 1 <= cfg.suffixMax && start == INITIAL && Answer(prefetch)
      requires At(map[0 := CheckPrefetch(Block(prefix, suffix))])
      modifies this`prefetchRequested, this`nextPrefix, this`drawn, this`run
      ensures Valid() && old(run) <= run && id != 0
      ensures id == BlockTicket(prefix, suffix, SuffixMultiplier(cfg.suffixMax))
      ensures exists w :: IsLow64(w, prefix * SuffixMultiplier(cfg.suffixMax) + suffix) && IsAppended(w, id)
    {
      MaybeTriggerPrefetch(Block(prefix, suffix), suffix, prefetch);
      TicketInPlain(prefix, suffix, SuffixMultiplier(cfg.suffixMax));
      TicketNonZero(prefix, suffix, SuffixMultiplier(cfg.suffixMax));
      return BlockTicket(prefix, suffix, SuffixMultiplier(cfg.suffixMax));
    }

    /** The next id of the current block, or the first of a new one; prefix 0 when the
        sequence gave none. */
    method NextBlockId(renewal: int) returns (prefix: int, suffix: int)
      requires Valid() && Answer(renewal)
      modifies this
      ensures old(run) <= run && start == INITIAL && drawn <= old(drawn) + {renewal}
      ensures if old(currentPrefix) == 0 then (prefix, suffix) == (renewal, 1)
              else if old(counter) < cfg.suffixMax then (prefix, suffix) == (old(currentPrefix), old(counter) + 1)
              else (prefix, suffix) == (if old(nextPrefix) != 0 then old(nextPrefix) else renewal, 1)
      ensures prefix == 0 ==> issued == old(issued) && At(map[])
      ensures prefix != 0 ==>
                (currentPrefix, counter) == (prefix, suffix)
                && issued == old(issued) + [Block(prefix, suffix)] && At(map[0 := CheckPrefetch(Block(prefix, suffix))])
    {
      prefix, suffix := currentPrefix, 1;
      Log(View(map[]), Begin(0));
      if prefix == 0 {
        prefix := FirstBlock(renewal);
      } else {
        suffix := Bump(prefix);
        if suffix > cfg.suffixMax {
          prefix := NextBlock(renewal);
          suffix := 1;
        }
      }
    }

    lemma LastIssuedIsFresh(b: Block)
      requires Valid() && 0 < |issued| && issued[|issued| - 1] == b
      ensures b !in issued[..|issued| - 1]
    {
      BlockIdsExact(run, cfg);
    }

    /** Records one machine step, taken from the registers `m`. */
    ghost method Log(m: State, e: Event)
      requires Reaches(start, run, m, cfg) && Alone(m) && e.task == 0 && Enabled(m, e)
      modifies this`run
      ensures run == old(run) + [e] && Reaches(start, run, Next(m, e, cfg), cfg)
    {
      Extend(start, run, m, e, cfg);
      run := run + [e];
    }

    /** fetch_add on the counter. */
    method Bump(prefix: int) returns (suffix: int)
      requires At(map[0 := Loaded(prefix)])
      modifies this`counter, this`issued, this`run
      ensures old(run) <= run && suffix == old(counter) + 1
      ensures suffix > cfg.suffixMax ==> issued == old(issued) && At(map[0 := Poll(0)])
      ensures counter == suffix
      ensures suffix <= cfg.suffixMax ==>
                issued == old(issued) + [Block(prefix, suffix)] && At(map[0 := CheckPrefetch(Block(prefix, suffix))])
    {
      ghost var m := View(map[0 := Loaded(prefix)]);
      suffix := counter + 1;
      counter := suffix;
      if suffix <= cfg.suffixMax {
        issued := issued + [Block(prefix, suffix)];
      }
      Log(m, Step(0));
    }

    method FirstBlock(renewal: int) returns (prefix: int)
      requires At(map[0 := InitFetch]) && Answer(renewal)
      modifies this`currentPrefix, this`counter, this`drawn, this`issued, this`run
      ensures old(run) <= run && prefix == renewal
      ensures drawn == old(drawn) + if renewal != 0 then {renewal} else {}
      ensures prefix == 0 ==> issued == old(issued) && At(map[])
      ensures prefix != 0 ==>
                (currentPrefix, counter) == (prefix, 1)
                && issued == old(issued) + [Block(prefix, 1)] && At(map[0 := CheckPrefetch(Block(prefix, 1))])
    {
      Log(View(map[0 := InitFetch]), Fetched(0, renewal));
      if renewal != 0 {
        drawn := drawn + {renewal};
        InstallFirst(renewal);
      }
      return renewal;
    }

    method InstallFirst(prefix: int)
      requires At(map[0 := InitStorePrefix(prefix)])
      modifies this`currentPrefix, this`counter, this`issued, this`run
      ensures old(run) <= run && issued == old(issued) + [Block(prefix, 1)]
      ensures (currentPrefix, counter) == (prefix, 1) && At(map[0 := CheckPrefetch(Block(prefix, 1))])
    {
      StoreFirstPrefix(prefix);
      ghost var m := View(map[0 := InitStoreCounter(prefix)]);
      counter := 1;
      issued := issued + [Block(prefix, 1)];
      Log(m, Step(0));
    }

    method StoreFirstPrefix(prefix: int)
      requires At(map[0 := InitStorePrefix(prefix)])
      modifies this`currentPrefix, this`run
      ensures run == old(run) + [Step(0)] && currentPrefix == prefix && At(map[0 := InitStoreCounter(prefix)])
    {
      ghost var m := View(map[0 := InitStorePrefix(prefix)]);
      currentPrefix := prefix;
      Log(m, Step(0));
    }

    method NextBlock(renewal: int) returns (prefix: int)
      requires At(map[0 := Poll(0)]) && Answer(renewal)
      modifies this
      ensures old(run) <= run && start == old(start)
      ensures prefix == if old(nextPrefix) != 0 then old(nextPrefix) else renewal
      ensures drawn <= old(drawn) + {renewal}
      ensures prefix == 0 ==> issued == old(issued) && At(map[])
      ensures prefix != 0 ==>
                (currentPrefix, counter) == (prefix, 1)
                && issued == old(issued) + [Block(prefix, 1)] && At(map[0 := CheckPrefetch(Block(prefix, 1))])
    {
      prefix := WaitOrFetchNextPrefix(renewal);
      if prefix != 0 {
        InstallPrefix(prefix);
        ResetCounter(prefix);
      }
    }

    method ResetCounter(prefix: int)
      requires At(map[0 := RollStoreCounter(prefix)])
      modifies this`counter, this`prefetchRequested, this`issued, this`run
      ensures old(run) <= run && issued == old(issued) + [Block(prefix, 1)]
      ensures counter == 1 && !prefetchRequested && At(map[0 := CheckPrefetch(Block(prefix, 1))])
    {
      RestartCounter(prefix);
      ghost var m := View(map[0 := RollClearRequested(prefix)]);
      prefetchRequested := false;
      Log(m, Step(0));
    }

    method RestartCounter(prefix: int)
      requires At(map[0 := RollStoreCounter(prefix)])
      modifies this`counter, this`issued, this`run
      ensures run == old(run) + [Step(0)] && issued == old(issued) + [Block(prefix, 1)]
      ensures counter == 1 && At(map[0 := RollClearRequested(prefix)])
    {
      ghost var m := View(map[0 := RollStoreCounter(prefix)]);
      counter := 1;
      issued := issued + [Block(prefix, 1)];
      Log(m, Step(0));
    }

    method InstallPrefix(prefix: int)
      requires At(map[0 := RollStorePrefix(prefix)])
      modifies this`currentPrefix, this`nextPrefix, this`retired, this`run
      ensures old(run) <= run && currentPrefix == prefix && nextPrefix == 0 && At(map[0 := RollStoreCounter(prefix)])
    {
      ReplacePrefix(prefix);
      ghost var m := View(map[0 := RollClearNext(prefix)]);
      nextPrefix := 0;
      Log(m, Step(0));
    }

    method ReplacePrefix(prefix: int)
      requires At(map[0 := RollStorePrefix(prefix)])
      modifies this`currentPrefix, this`retired, this`run
      ensures run == old(run) + [Step(0)] && currentPrefix == prefix && At(map[0 := RollClearNext(prefix)])
    {
      ghost var m := View(map[0 := RollStorePrefix(prefix)]);
      retired := retired + {currentPrefix};
      currentPrefix := prefix;
      Log(m, Step(0));
    }

    method WaitOrFetchNextPrefix(renewal: int) returns (next: int)
      requires At(map[0 := Poll(0)]) && Answer(renewal)
      modifies this`drawn, this`run
      ensures old(run) <= run && next == if nextPrefix != 0 then nextPrefix else renewal
      ensures drawn == old(drawn) + if nextPrefix == 0 && renewal != 0 then {renewal} else {}
      ensures next == 0 ==> At(map[])
      ensures next != 0 ==> At(map[0 := RollStorePrefix(next)])
    {
      for k := 0 to MAX_POLLS
        invariant At(map[0 := if k < MAX_POLLS then Poll(k) else RollFetch])
        invariant old(run) <= run && drawn == old(drawn)
        invariant 0 < k ==> nextPrefix == 0
      {
        Log(View(map[0 := Poll(k)]), Step(0));
        if nextPrefix != 0 {
          return nextPrefix;
        }
      }
      FetchRenewal(renewal);
      return renewal;
    }

    method FetchRenewal(renewal: int)
      requires At(map[0 := RollFetch]) && Answer(renewal)
      modifies this`drawn, this`run
      ensures run == old(run) + [Fetched(0, renewal)] && drawn == old(drawn) + if renewal != 0 then {renewal} else {}
      ensures At(if renewal == 0 then map[] else map[0 := RollStorePrefix(renewal)])
    {
      Log(View(map[0 := RollFetch]), Fetched(0, renewal));
      drawn := drawn + if renewal != 0 then {renewal} else {};
    }

    /** Prefetches from the threshold on, unless a prefetch was requested for this block;
        one that fails leaves the next prefix alone. */
    method MaybeTriggerPrefetch(ghost b: Block, suffix: int, prefetch: int)
      requires At(map[0 := CheckPrefetch(b)]) && b.suffix == suffix && Answer(prefetch)
      modifies this`prefetchRequested, this`nextPrefix, this`drawn, this`run
      ensures At(map[])
      ensures var prefetches := cfg.threshold <= suffix && !old(prefetchRequested);
              && prefetchRequested == (old(prefetchRequested) || prefetches)
              && nextPrefix == (if prefetches && prefetch != 0 then prefetch else old(nextPrefix))
              && drawn == old(drawn) + (if prefetches && prefetch != 0 then {prefetch} else {})
              && run == old(run) + [Step(0)] + (if !prefetches then []
                                                else [Fetched(0, prefetch)] + if prefetch != 0 then [Step(0)] else [])
    {
      ghost var m := View(map[0 := CheckPrefetch(b)]);
      if suffix < cfg.threshold || prefetchRequested {
        Log(m, Step(0));
        return;
      }
      prefetchRequested := true;
      Log(m, Step(0));
      Prefetch(b, prefetch);
    }

    method Prefetch(ghost b: Block, prefetch: int)
      requires At(map[0 := PrefetchFetch(b)]) && Answer(prefetch)
      modifies this`nextPrefix, this`drawn, this`run
      ensures At(map[])
      ensures nextPrefix == if prefetch != 0 then prefetch else old(nextPrefix)
      ensures drawn == old(drawn) + if prefetch != 0 then {prefetch} else {}
      ensures run == old(run) + ([Fetched(0, prefetch)] + if prefetch != 0 then [Step(0)] else [])
    {
      Log(View(map[0 := PrefetchFetch(b)]), Fetched(0, prefetch));
      if prefetch != 0 {
        drawn := drawn + {prefetch};
        ghost var m := View(map[0 := PrefetchStore(b, prefetch)]);
        nextPrefix := prefetch;
        Log(m, Step(0));
      }
    }
  }

  /** Appending the digit never yields zero, even after an overflow. */
  lemma TicketNonZero(prefix: int, suffix: int, multiplier: int)
    ensures BlockTicket(prefix, suffix, multiplier) != 0
  {
  }
}
