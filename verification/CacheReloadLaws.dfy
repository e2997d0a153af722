/** What repeated reloads of the two-level cache achieve, and when its two levels part. */
module CacheReloadLaws {
  import opened Collections
  import opened CacheKeys
  import opened CacheReload

  datatype Stores = Stores(moka: Store, keydb: Store)

  ghost predicate Ok(s: Stores) {
    Coherent(s.moka, s.keydb)
  }

  ghost predicate Reloaded(s: Stores, prefix: string, data: seq<(string, string)>, s': Stores) {
    Reload(s.moka, s.keydb, prefix, data, s'.moka, s'.keydb)
  }

  function StaleIn(s: Stores, prefix: string, data: seq<(string, string)>): set<string> {
    StaleKeys(s.keydb.Keys, prefix, FromPairs(data).Keys)
  }

  /** The key has the same value, or is absent, in both states. */
  ghost predicate SameAt(a: Store, b: Store, k: string) {
    (k in a <==> k in b) && (k in a ==> a[k] == b[k])
  }

  ghost predicate Includes(s: Store, part: Store) {
    forall k :: k in part ==> k in s && s[k] == part[k]
  }

  ghost predicate Holds(s: Store, data: seq<(string, string)>) {
    Includes(s, FromPairs(data))
  }

  /** Outside the prefix only the new data changes. */
  ghost predicate SameOutside(a: Store, b: Store, prefix: string, added: Store) {
    forall k :: !(prefix <= k) && k !in added ==> SameAt(a, b, k)
  }

  lemma StoreChanges(s: Store, added: Store, removed: set<string>, prefix: string)
    requires removed !! added.Keys && forall k :: k in removed ==> prefix <= k
    ensures Includes(s + added - removed, added) && SameOutside(s, s + added - removed, prefix, added)
  {
  }

  lemma BothChange(moka: Store, keydb: Store, added: Store, removed: set<string>)
    requires Coherent(moka, keydb)
    ensures Coherent(moka + added - removed, keydb + added - removed)
  {
  }

  lemma DifferenceSize(all: set<string>, part: set<string>)
    requires part <= all
    ensures |all - part| == |all| - |part|
  {
  }

  lemma StaleKeysAfter(keys: set<string>, prefix: string, added: set<string>, removed: set<string>)
    requires removed <= StaleKeys(keys, prefix, added)
    ensures StaleKeys(keys + added - removed, prefix, added) == StaleKeys(keys, prefix, added) - removed
  {
  }

  lemma KeysAfter(s: Store, added: Store, removed: set<string>)
    ensures (s + added - removed).Keys == s.Keys + added.Keys - removed
  {
  }

  lemma StaleShrinks(keydb: Store, prefix: string, added: Store, removed: set<string>)
    requires removed <= StaleKeys(keydb.Keys, prefix, added.Keys)
    ensures var stale, rest := StaleKeys(keydb.Keys, prefix, added.Keys),
                               StaleKeys((keydb + added - removed).Keys, prefix, added.Keys);
            rest <= stale && |stale| - |rest| == |removed|
  {
    KeysAfter(keydb, added, removed);
    StaleKeysAfter(keydb.Keys, prefix, added.Keys, removed);
    DifferenceSize(StaleKeys(keydb.Keys, prefix, added.Keys), removed);
  }

  lemma ReloadedVia(s: Stores, prefix: string, data: seq<(string, string)>, s': Stores) returns (removed: set<string>)
    requires Reloaded(s, prefix, data, s')
    ensures ReloadVia(s.moka, s.keydb, prefix, data, removed, s'.moka, s'.keydb)
  {
    removed :| ReloadVia(s.moka, s.keydb, prefix, data, removed, s'.moka, s'.keydb);
  }

  /** One reload installs every new value in both stores, removes as many stale keys as
      its bound allows, and touches nothing outside the prefix but the new data. */
  lemma ReloadShrinksStale(s: Stores, prefix: string, data: seq<(string, string)>, s': Stores)
    requires Ok(s) && Reloaded(s, prefix, data, s')
    ensures Ok(s') && Holds(s'.moka, data) && Holds(s'.keydb, data)
    ensures StaleIn(s', prefix, data) <= StaleIn(s, prefix, data)
    ensures |StaleIn(s, prefix, data)| - |StaleIn(s', prefix, data)| == Min(|StaleIn(s, prefix, data)|, STALE_CAP)
    ensures SameOutside(s.moka, s'.moka, prefix, FromPairs(data))
    ensures SameOutside(s.keydb, s'.keydb, prefix, FromPairs(data))
  {
    var removed := ReloadedVia(s, prefix, data, s');
    var added := FromPairs(data);
    BothChange(s.moka, s.keydb, added, removed);
    StoreChanges(s.moka, added, removed, prefix);
    StoreChanges(s.keydb, added, removed, prefix);
    StaleShrinks(s.keydb, prefix, added, removed);
  }

  /** Data whose keys were all made for one prefix. */
  ghost predicate DataUnder(data: seq<(string, string)>, p: CachePrefix) {
    forall k :: k in FromPairs(data) ==> AsStr(p) <= k
  }

  /** A key of any other prefix is left alone in both stores. */
  lemma ReloadSparesOthers(s: Stores, p: CachePrefix, data: seq<(string, string)>, s': Stores,
                           q: CachePrefix, parts: seq<string>)
    requires Ok(s) && Reloaded(s, AsStr(p), data, s') && DataUnder(data, p) && p != q
    ensures SameAt(s.moka, s'.moka, Key(q, parts)) && SameAt(s.keydb, s'.keydb, Key(q, parts))
  {
    ReloadShrinksStale(s, AsStr(p), data, s');
    KeyHasOnePrefix(p, q, parts);
  }

  // ------------------------------------------------------------ repeated reloads

  ghost predicate Reloads(states: seq<Stores>, prefix: string, data: seq<(string, string)>) {
    |states| > 0 && Ok(states[0])
    && forall i :: 0 < i < |states| ==> Reloaded(states[i - 1], prefix, data, states[i])
  }

  lemma {:induction false} StaleAfter(states: seq<Stores>, prefix: string, data: seq<(string, string)>, n: nat)
    requires Reloads(states, prefix, data) && n < |states|
    ensures Ok(states[n])
    ensures n > 0 ==> Holds(states[n].moka, data) && Holds(states[n].keydb, data)
    ensures var stale := |StaleIn(states[0], prefix, data)|;
            |StaleIn(states[n], prefix, data)| == if n * STALE_CAP <= stale then stale - n * STALE_CAP else 0
    decreases n
  {
    if n > 0 {
      StaleAfter(states, prefix, data, n - 1);
      ReloadShrinksStale(states[n - 1], prefix, data, states[n]);
    }
  }

  /** Both stores hold under the prefix exactly the new data. */
  ghost predicate Converged(s: Stores, prefix: string, data: seq<(string, string)>) {
    && Under(s.keydb.Keys, prefix) == FromPairs(data).Keys == Under(s.moka.Keys, prefix)
    && Holds(s.moka, data) && Holds(s.keydb, data)
  }

  lemma ConvergedIffNoneStale(s: Stores, p: CachePrefix, data: seq<(string, string)>)
    requires Ok(s) && Holds(s.moka, data) && Holds(s.keydb, data) && DataUnder(data, p)
    ensures Converged(s, AsStr(p), data) <==> |StaleIn(s, AsStr(p), data)| == 0
  {
    var added := FromPairs(data).Keys;
    assert added <= Under(s.moka.Keys, AsStr(p)) <= Under(s.keydb.Keys, AsStr(p));
    if |StaleIn(s, AsStr(p), data)| == 0 {
      assert StaleIn(s, AsStr(p), data) == {};
      assert Under(s.keydb.Keys, AsStr(p)) <= added;
    }
  }

  /** `n` reloads of the same data reach exactly that data if and only if `n` times the
      bound covers the stale keys of the first state. */
  lemma ReloadsConvergeIff(states: seq<Stores>, p: CachePrefix, data: seq<(string, string)>, n: nat)
    requires Reloads(states, AsStr(p), data) && DataUnder(data, p) && 0 < n < |states|
    ensures Converged(states[n], AsStr(p), data) <==> |StaleIn(states[0], AsStr(p), data)| <= n * STALE_CAP
  {
    StaleAfter(states, AsStr(p), data, n);
    ConvergedIffNoneStale(states[n], p, data);
  }

  // ------------------------------------------------------------ where the levels part

  /** Removing a prefix keeps the levels coherent if and only if the in-process store
      holds no more keys under it than the bound. */
  lemma RemovePrefixIff(moka: Store, keydb: Store, prefix: string, gone: set<string>, moka': Store, maxKeys: nat)
    requires Coherent(moka, keydb) && PrefixGone(moka, prefix, gone, moka', maxKeys)
    ensures Coherent(moka', keydb - Under(keydb.Keys, prefix)) <==>
            |Under(moka.Keys, prefix)| <= if maxKeys == 0 then 1 else maxKeys
  {
    var all := Under(moka.Keys, prefix);
    assert all == gone + (all - gone);
    assert |all - gone| == |all| - |gone|;
    if all - gone != {} {
      var k :| k in all - gone;
      assert k in moka' && k !in keydb - Under(keydb.Keys, prefix);
    }
  }
}
