/** The two-level cache: an in-process store in front of KeyDB, both written by every
    operation, and the capped reload of all keys under a prefix. */
module CacheReload {
  import opened Collections
  import opened Options

  const STALE_CAP: nat := 5000

  type Store = map<string, string>

  function Under(keys: set<string>, prefix: string): set<string> {
    set k | k in keys && prefix <= k
  }

  /** The keys under the prefix that new data does not hold. */
  function StaleKeys(keys: set<string>, prefix: string, newKeys: set<string>): set<string> {
    Under(keys, prefix) - newKeys
  }

  function Min(a: nat, b: nat): nat {
    if a <= b then a else b
  }

  /** What is in process is also in KeyDB, with the same value. */
  ghost predicate Coherent(moka: Store, keydb: Store) {
    forall k :: k in moka ==> k in keydb && keydb[k] == moka[k]
  }

  // ------------------------------------------------------------ the effect of a reload

  /** `removed` are the stale keys that this reload removed. */
  ghost predicate ReloadVia(moka: Store, keydb: Store, prefix: string, data: seq<(string, string)>,
                            removed: set<string>, moka': Store, keydb': Store)
  {
    var stale := StaleKeys(keydb.Keys, prefix, FromPairs(data).Keys);
    && removed <= stale && |removed| == Min(|stale|, STALE_CAP)
    && moka' == moka + FromPairs(data) - removed
    && keydb' == keydb + FromPairs(data) - removed
  }

  ghost predicate Reload(moka: Store, keydb: Store, prefix: string, data: seq<(string, string)>,
                         moka': Store, keydb': Store)
  {
    exists removed :: ReloadVia(moka, keydb, prefix, data, removed, moka', keydb')
  }

  lemma StaleUnchanged(keydb: Store, prefix: string, added: Store)
    ensures StaleKeys((keydb + added).Keys, prefix, added.Keys) == StaleKeys(keydb.Keys, prefix, added.Keys)
  {
  }

  class CacheManager {
    var moka: Store
    var keydb: Store
    /** The bound on keys listed or removed per prefix in process. */
    const prefixOpMaxKeys: nat

    constructor (prefixOpMaxKeys: nat, keydb: Store)
      ensures this.prefixOpMaxKeys == prefixOpMaxKeys && moka == map[] && this.keydb == keydb && Valid()
    {
      this.prefixOpMaxKeys := prefixOpMaxKeys;
      moka := map[];
      this.keydb := keydb;
    }

    ghost predicate Valid()
      reads this
    {
      Coherent(moka, keydb)
    }

    method Get(key: string) returns (value: Option<string>)
      requires Valid()
      modifies this`moka
      ensures Valid()
      ensures value == if key in keydb then Some(keydb[key]) else None
      ensures moka == if key in keydb then old(moka)[key := keydb[key]] else old(moka)
    {
      if key in moka {
        assert moka == moka[key := moka[key]];
        return Some(moka[key]);
      }
      if key in keydb {
        moka := moka[key := keydb[key]];
        return Some(keydb[key]);
      }
      return None;
    }

    method Set(key: string, value: string)
      requires Valid()
      modifies this`moka, this`keydb
      ensures Valid()
      ensures moka == old(moka)[key := value] && keydb == old(keydb)[key := value]
    {
      moka := moka[key := value];
      keydb := keydb[key := value];
    }

    method Remove(key: string)
      requires Valid()
      modifies this`moka, this`keydb
      ensures Valid()
      ensures moka == old(moka) - {key} && keydb == old(keydb) - {key}
    {
      moka := moka - {key};
      keydb := keydb - {key};
    }

    /** The in-process keys under a prefix in some order, cut off at a bound that is
        checked only after a key was added. */
    method MokaKeysCapped(prefix: string, maxKeys: nat) returns (keys: seq<string>)
      ensures forall i, j :: 0 <= i < j < |keys| ==> keys[i] != keys[j]
      ensures |keys| == Min(|Under(moka.Keys, prefix)|, if maxKeys == 0 then 1 else maxKeys)
      ensures SetOf(keys) <= Under(moka.Keys, prefix) && |SetOf(keys)| == |keys|
    {
      keys := [];
      var left := moka.Keys;
      while left != {}
        invariant left <= moka.Keys
        invariant SetOf(keys) == Under(moka.Keys - left, prefix) && |SetOf(keys)| == |keys|
        invariant forall i, j :: 0 <= i < j < |keys| ==> keys[i] != keys[j]
        invariant |keys| < if maxKeys == 0 then 1 else maxKeys
        decreases left
      {
        var key :| key in left;
        left := left - {key};
        if prefix <= key {
          assert key !in SetOf(keys);
          SetOfPush(keys, key);
          keys := keys + [key];
          assert SetOf(keys) == Under(moka.Keys - left, prefix);
          SubsetSize(SetOf(keys), Under(moka.Keys, prefix));
          if |keys| >= maxKeys {
            return;
          }
        } else {
          assert Under(moka.Keys - left, prefix) == SetOf(keys);
        }
      }
      assert moka.Keys - left == moka.Keys;
    }

    /** Every key under the prefix, from both stores: the bound in process hides none. */
    method GetKeysWithPrefix(prefix: string) returns (keys: set<string>)
      requires Valid()
      ensures keys == Under(keydb.Keys, prefix) == set k | k in keydb && prefix <= k
    {
      var inProcess := MokaKeysCapped(prefix, prefixOpMaxKeys);
      keys := SetOf(inProcess) + Under(keydb.Keys, prefix);
    }

    method Install(data: seq<(string, string)>)
      requires Valid()
      modifies this`moka, this`keydb
      ensures Valid()
      ensures moka == old(moka) + FromPairs(data) && keydb == old(keydb) + FromPairs(data)
    {
      for i := 0 to |data|
        invariant moka == old(moka) + FromPairs(data[..i]) && keydb == old(keydb)
      {
        assert data[..i + 1][..i] == data[..i];
        moka := moka[data[i].0 := data[i].1];
      }
      assert data[..|data|] == data;
      keydb := keydb + FromPairs(data);
    }

    method InvalidateInProcess(keys: seq<string>)
      modifies this`moka
      ensures moka == old(moka) - SetOf(keys)
    {
      for i := 0 to |keys|
        invariant moka == old(moka) - SetOf(keys[..i])
      {
        SetOfPush(keys[..i], keys[i]);
        assert keys[..i + 1] == keys[..i] + [keys[i]];
        moka := moka - {keys[i]};
      }
      assert keys[..|keys|] == keys;
    }

    method RemoveStale(prefix: string, newKeys: set<string>) returns (ghost removed: set<string>)
      requires Valid()
      modifies this`moka, this`keydb
      ensures Valid()
      ensures removed <= StaleKeys(old(keydb).Keys, prefix, newKeys)
      ensures |removed| == Min(|StaleKeys(old(keydb).Keys, prefix, newKeys)|, STALE_CAP)
      ensures moka == old(moka) - removed && keydb == old(keydb) - removed
    {
      var all := GetKeysWithPrefix(prefix);
      var stale := all - newKeys;
      var toRemove := TakeSome(stale, STALE_CAP);
      removed := SetOf(toRemove);
      if |toRemove| > 0 {
        InvalidateInProcess(toRemove);
        keydb := keydb - SetOf(toRemove);
      }
    }

    /** Installs new data and removes stale keys, a bounded number per call; the coherence of
        the two levels is kept. */
    method AtomicReloadPrefix(prefix: string, data: seq<(string, string)>) returns (ghost removed: set<string>)
      requires Valid()
      modifies this`moka, this`keydb
      ensures Valid()
      ensures ReloadVia(old(moka), old(keydb), prefix, data, removed, moka, keydb)
    {
      Install(data);
      StaleUnchanged(old(keydb), prefix, FromPairs(data));
      removed := RemoveStale(prefix, FromPairs(data).Keys);
    }

    /** Removes a whole prefix from KeyDB, but in process only up to the bound. */
    method RemovePrefix(prefix: string) returns (ghost gone: set<string>)
      requires Valid()
      modifies this`moka, this`keydb
      ensures keydb == old(keydb) - (set k | k in old(keydb) && prefix <= k)
      ensures PrefixGone(old(moka), prefix, gone, moka, prefixOpMaxKeys)
    {
      var keys := MokaKeysCapped(prefix, prefixOpMaxKeys);
      gone := SetOf(keys);
      InvalidateInProcess(keys);
      keydb := keydb - Under(keydb.Keys, prefix);
    }
  }

  /** The keys under the prefix that no pair has. */
  ghost function OldKeys(keydb: Store, prefix: string, data: seq<(string, string)>): set<string> {
    set k | k in keydb && prefix <= k && !KeyIn(data, k)
  }

  /** `s'` holds each pair's value that is last for its key, and what `s` held of the keys
      that no pair has and that were not removed. */
  ghost predicate Updated(s: Store, data: seq<(string, string)>, removed: set<string>, s': Store) {
    && (forall i :: IsLastPair(data, i) ==> data[i].0 in s' && s'[data[i].0] == data[i].1)
    && (forall k :: k in removed ==> k !in s')
    && forall k :: !KeyIn(data, k) && k !in removed ==> (k in s' <==> k in s) && (k in s ==> s'[k] == s[k])
  }

  lemma UpdatedByData(s: Store, data: seq<(string, string)>, removed: set<string>)
    requires removed !! FromPairs(data).Keys
    ensures Updated(s, data, removed, s + FromPairs(data) - removed)
  {
    FromPairsHolds(data);
  }

  /** What a reload does, key by key: both stores hold the new data, with the last value for
      each key, of the old keys under the prefix 5000 are gone, or all if there are no
      more, and every other key is as it was. */
  lemma ReloadInPlain(moka: Store, keydb: Store, prefix: string, data: seq<(string, string)>,
                      removed: set<string>, moka': Store, keydb': Store)
    requires ReloadVia(moka, keydb, prefix, data, removed, moka', keydb')
    ensures Updated(moka, data, removed, moka') && Updated(keydb, data, removed, keydb')
    ensures removed <= OldKeys(keydb, prefix, data)
    ensures var old' := |OldKeys(keydb, prefix, data)|; |removed| == if old' <= 5000 then old' else 5000
  {
    UpdatedByData(moka, data, removed);
    UpdatedByData(keydb, data, removed);
    OldIsStale(keydb, prefix, data);
  }

  lemma OldIsStale(keydb: Store, prefix: string, data: seq<(string, string)>)
    ensures StaleKeys(keydb.Keys, prefix, FromPairs(data).Keys) == OldKeys(keydb, prefix, data)
  {
    FromPairsHolds(data);
  }

  lemma SetOfPush(s: seq<string>, k: string)
    ensures SetOf(s + [k]) == SetOf(s) + {k}
    ensures k !in SetOf(s) ==> |SetOf(s + [k])| == |SetOf(s)| + 1
  {
  }

  lemma SubsetSize(a: set<string>, b: set<string>)
    requires a <= b
    ensures |a| <= |b|
  {
    assert b == a + (b - a);
  }

  /** Some `cap` elements of a set, or all of them. */
  method TakeSome(from: set<string>, cap: nat) returns (taken: seq<string>)
    ensures SetOf(taken) <= from && |SetOf(taken)| == |taken| == Min(|from|, cap)
  {
    taken := [];
    var left := from;
    while left != {} && |taken| < cap
      invariant left <= from && SetOf(taken) == from - left
      invariant |SetOf(taken)| == |taken| == |from| - |left| && |taken| <= cap
      decreases left
    {
      var k :| k in left;
      SetOfPush(taken, k);
      taken := taken + [k];
      left := left - {k};
    }
  }

  ghost predicate PrefixGone(moka: Store, prefix: string, gone: set<string>, moka': Store, maxKeys: nat) {
    && gone <= Under(moka.Keys, prefix)
    && |gone| == Min(|Under(moka.Keys, prefix)|, if maxKeys == 0 then 1 else maxKeys)
    && moka' == moka - gone
  }
}
