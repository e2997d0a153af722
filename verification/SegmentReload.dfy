/** Segments from the database through capped reloads into KeyDB, and back by the fallback. */
module SegmentReload {
  import opened Options
  import opened Collections
  import opened CacheKeys
  import opened CacheReload
  import opened CacheReloadLaws
  import opened SegmentCache

  /** How lists of ids are stored. */
  datatype Codec = Codec(json: seq<int> -> string, parse: string -> Option<seq<int>>)

  ghost predicate CodecOk(c: Codec) {
    forall ids :: c.parse(c.json(ids)) == Some(ids)
  }

  type Encoder = Segment -> string

  /** The pairs of one load, in any order. */
  ghost predicate IsCacheData(data: seq<(string, string)>, m: Segments, encode: Encoder, c: Codec) {
    && (forall key :: key in FromPairs(data) ==> exists k :: k in m && key == encode(k))
    && (forall k :: k in m ==>
          IsSegment(k) && encode(k) in FromPairs(data) && FromPairs(data)[encode(k)] == c.json(m[k]))
  }

  /** KeyDB's keys under the prefix, each once, with their lists; each key was made for a
      pair of tolls. */
  ghost predicate ListsKeyDB(keydb: Store, prefix: string, loaded: Loaded, segs: seq<Segment>,
                             encode: Encoder, c: Codec) {
    && IsListing(encode, loaded, segs)
    && (forall i :: 0 <= i < |loaded| ==>
          loaded[i].0 in Under(keydb.Keys, prefix) && c.parse(keydb[loaded[i].0]) == Some(loaded[i].1))
    && (forall key :: key in Under(keydb.Keys, prefix) ==> exists i :: 0 <= i < |loaded| && loaded[i].0 == key)
  }

  ghost predicate AllUnder(prefix: string, encode: Encoder) {
    forall k :: prefix <= encode(k)
  }

  lemma LoadIsListed(keydb: Store, prefix: string, data: seq<(string, string)>, m: Segments, loaded: Loaded,
                     segs: seq<Segment>, encode: Encoder, c: Codec)
    requires AllUnder(prefix, encode) && CodecOk(c)
    requires IsCacheData(data, m, encode, c) && Includes(keydb, FromPairs(data))
    requires ListsKeyDB(keydb, prefix, loaded, segs, encode, c)
    ensures Lists(encode, loaded, m)
  {
    forall k | k in m ensures IsSegment(k) && (encode(k), m[k]) in loaded {
      assert encode(k) in Under(keydb.Keys, prefix);
      var i :| 0 <= i < |loaded| && loaded[i].0 == encode(k);
      assert c.parse(c.json(m[k])) == Some(m[k]);
      assert loaded[i] == (encode(k), m[k]);
    }
  }

  /** No other segment is listed if and only if no other key is under the prefix. */
  lemma NoneLeftIff(keydb: Store, prefix: string, data: seq<(string, string)>, m: Segments, loaded: Loaded,
                    segs: seq<Segment>, decode: string -> Option<Segment>, encode: Encoder, c: Codec)
    requires Undoes(decode, encode)
    requires IsCacheData(data, m, encode, c) && ListsKeyDB(keydb, prefix, loaded, segs, encode, c)
    ensures (forall k :: k in segs ==> k in m) <==> StaleKeys(keydb.Keys, prefix, FromPairs(data).Keys) == {}
  {
    var stale := StaleKeys(keydb.Keys, prefix, FromPairs(data).Keys);
    if forall k :: k in segs ==> k in m {
      forall key ensures key !in stale {
        if key in Under(keydb.Keys, prefix) {
          var i :| 0 <= i < |loaded| && loaded[i].0 == key;
          assert segs[i] in segs;
        }
      }
    }
    if stale == {} {
      forall i | 0 <= i < |segs| ensures segs[i] in m {
        assert loaded[i].0 !in stale;
        var k :| k in m && loaded[i].0 == encode(k);
        assert decode(encode(k)) == Some(k) && decode(encode(segs[i])) == Some(segs[i]);
      }
    }
  }

  lemma RebuiltAfterReloads(states: seq<Stores>, prefix: string, data: seq<(string, string)>, m: Segments,
                            loaded: Loaded, segs: seq<Segment>, n: nat,
                            decode: string -> Option<Segment>, encode: Encoder, c: Codec)
    requires AllUnder(prefix, encode) && Undoes(decode, encode) && CodecOk(c)
    requires Reloads(states, prefix, data) && 0 < n < |states| && IsCacheData(data, m, encode, c)
    requires ListsKeyDB(states[n].keydb, prefix, loaded, segs, encode, c)
    ensures FromPairs(Decoded(decode, loaded)) == m <==> |StaleIn(states[0], prefix, data)| <= n * STALE_CAP
  {
    StaleAfter(states, prefix, data, n);
    LoadIsListed(states[n].keydb, prefix, data, m, loaded, segs, encode, c);
    NoneLeftIff(states[n].keydb, prefix, data, m, loaded, segs, decode, encode, c);
    RebuiltExactIff(decode, encode, loaded, segs, m);
    var stale := StaleIn(states[n], prefix, data);
    assert |stale| == 0 <==> stale == {};
  }

  function StagePrefix(): string {
    AsStr(ClosedCycleTransitionStage)
  }

  lemma StageKeysUnder()
    ensures AllUnder(StagePrefix(), StageKey)
  {
    forall k ensures StagePrefix() <= StageKey(k) {
      var parts := [Decimals.Print(k.0), Decimals.Print(k.1)];
      KeyHasOnePrefix(ClosedCycleTransitionStage, ClosedCycleTransitionStage, parts);
    }
  }

  /** After `n` reloads of what the database held, the fallback rebuilds exactly that if and
      only if `n` times the bound covers the keys that were stale at first. */
  lemma FallbackAfterReloads(states: seq<Stores>, data: seq<(string, string)>, m: Segments,
                             loaded: Loaded, segs: seq<Segment>, n: nat, c: Codec)
    requires CodecOk(c) && Reloads(states, StagePrefix(), data) && 0 < n < |states|
    requires IsCacheData(data, m, StageKey, c)
    requires ListsKeyDB(states[n].keydb, StagePrefix(), loaded, segs, StageKey, c)
    ensures FromPairs(Decoded(DecodeKey, loaded)) == m <==> |StaleIn(states[0], StagePrefix(), data)| <= n * STALE_CAP
  {
    StageKeysUnder();
    StageKeysDecode();
    RebuiltAfterReloads(states, StagePrefix(), data, m, loaded, segs, n, DecodeKey, StageKey, c);
  }

  // ------------------------------------------------------------ a reload that leaves a key

  function Diagonal(encode: Encoder, n: nat): set<string> {
    set i | 0 <= i < n :: encode((i, i))
  }

  lemma DiagonalDistinct(decode: string -> Option<Segment>, encode: Encoder, i: nat, j: nat)
    requires Undoes(decode, encode) && i < j <= STALE_CAP
    ensures encode((i, i)) != encode((j, j))
  {
    assert decode(encode((i, i))) == Some((i, i)) && decode(encode((j, j))) == Some((j, j));
  }

  lemma NextIsNew(decode: string -> Option<Segment>, encode: Encoder, n: nat)
    requires Undoes(decode, encode) && n <= STALE_CAP
    ensures encode((n, n)) !in Diagonal(encode, n)
  {
    forall i | 0 <= i < n ensures encode((i, i)) != encode((n, n)) {
      DiagonalDistinct(decode, encode, i, n);
    }
  }

  lemma {:induction false} DiagonalSize(decode: string -> Option<Segment>, encode: Encoder, n: nat)
    requires Undoes(decode, encode) && n <= STALE_CAP + 1
    ensures |Diagonal(encode, n)| == n
  {
    if n > 0 {
      DiagonalSize(decode, encode, n - 1);
      NextIsNew(decode, encode, n - 1);
      assert Diagonal(encode, n) == Diagonal(encode, n - 1) + {encode((n - 1, n - 1))};
    }
  }

  /** KeyDB holds the first `n` diagonal segments and no other key. */
  function DiagonalStore(encode: Encoder, n: nat, text: string): Store {
    map key | key in Diagonal(encode, n) :: text
  }

  lemma LastIsLeft(prefix: string, decode: string -> Option<Segment>, encode: Encoder, text: string)
    requires AllUnder(prefix, encode) && Undoes(decode, encode)
    ensures var keydb, last := DiagonalStore(encode, STALE_CAP + 1, text), encode((STALE_CAP, STALE_CAP));
            && Under(keydb.Keys, prefix) == Diagonal(encode, STALE_CAP + 1)
            && last !in Diagonal(encode, STALE_CAP)
            && Under(keydb.Keys, prefix) == Diagonal(encode, STALE_CAP) + {last}
  {
    NextIsNew(decode, encode, STALE_CAP);
    var all := Diagonal(encode, STALE_CAP + 1);
    forall key | key in all ensures prefix <= key {
      var i :| 0 <= i <= STALE_CAP && key == encode((i, i));
    }
  }

  /** A reload of nothing takes away all keys but one. */
  lemma AllButOneGo(keydb: Store, prefix: string, gone: set<string>, last: string)
    requires Under(keydb.Keys, prefix) == keydb.Keys == gone + {last} && last !in gone
    requires |gone| == STALE_CAP && |keydb.Keys| == STALE_CAP + 1
    ensures Reload(map[], keydb, prefix, [], map[], map[last := keydb[last]])
  {
    var none := FromPairs<string, string>([]);
    assert none == map[];
    var left: Store := map[last := keydb[last]];
    assert keydb + none - gone == left;
    assert StaleKeys(keydb.Keys, prefix, none.Keys) == keydb.Keys;
    assert ReloadVia(map[], keydb, prefix, [], gone, map[], left);
  }

  lemma LastIsRebuilt(prefix: string, decode: string -> Option<Segment>, encode: Encoder, c: Codec, ids: seq<int>)
    requires AllUnder(prefix, encode) && Undoes(decode, encode) && CodecOk(c)
    ensures var k := (STALE_CAP, STALE_CAP);
            && ListsKeyDB(map[encode(k) := c.json(ids)], prefix, [(encode(k), ids)], [k], encode, c)
            && FromPairs(Decoded(decode, [(encode(k), ids)])) == map[k := ids]
  {
    var k: Segment := (STALE_CAP, STALE_CAP);
    var loaded: Loaded := [(encode(k), ids)];
    assert decode(encode(k)) == Some(k) && c.parse(c.json(ids)) == Some(ids);
    assert loaded[..0] == [] && Decoded(decode, loaded) == [] + [(k, ids)];
    assert FromPairs([(k, ids)]) == FromPairs([(k, ids)][..0])[k := ids];
    assert loaded[0].0 == encode(k);
  }

  lemma OneStep(s: Stores, s': Stores, prefix: string, data: seq<(string, string)>)
    requires Ok(s) && Reloaded(s, prefix, data, s')
    ensures Reloads([s, s'], prefix, data)
  {
    var states := [s, s'];
    forall i | 0 < i < |states| ensures Reloaded(states[i - 1], prefix, data, states[i]) {
      assert i == 1;
    }
  }

  lemma OneReload(keydb: Store, keydb': Store, prefix: string)
    requires Reload(map[], keydb, prefix, [], map[], keydb')
    ensures Reloads([Stores(map[], keydb), Stores(map[], keydb')], prefix, [])
  {
    OneStep(Stores(map[], keydb), Stores(map[], keydb'), prefix, []);
  }

  lemma OneIsLeft(prefix: string, decode: string -> Option<Segment>, encode: Encoder, c: Codec, ids: seq<int>)
    returns (states: seq<Stores>, loaded: Loaded, segs: seq<Segment>)
    requires AllUnder(prefix, encode) && Undoes(decode, encode) && CodecOk(c)
    ensures |states| == 2 && Reloads(states, prefix, []) && |Under(states[0].keydb.Keys, prefix)| == STALE_CAP + 1
    ensures ListsKeyDB(states[1].keydb, prefix, loaded, segs, encode, c)
    ensures FromPairs(Decoded(decode, loaded)) == map[(STALE_CAP, STALE_CAP) := ids]
  {
    var k: Segment := (STALE_CAP, STALE_CAP);
    var keydb, last := DiagonalStore(encode, STALE_CAP + 1, c.json(ids)), encode(k);
    LastIsLeft(prefix, decode, encode, c.json(ids));
    DiagonalSize(decode, encode, STALE_CAP);
    DiagonalSize(decode, encode, STALE_CAP + 1);
    AllButOneGo(keydb, prefix, Diagonal(encode, STALE_CAP), last);
    LastIsRebuilt(prefix, decode, encode, c, ids);
    states := [Stores(map[], keydb), Stores(map[], map[last := keydb[last]])];
    OneReload(keydb, map[last := keydb[last]], prefix);
    loaded, segs := [(last, ids)], [k];
  }

  /** KeyDB held 5001 segments and the database has none: after a reload of nothing the
      fallback still rebuilds one of them. */
  lemma CapLeavesASegment(c: Codec, ids: seq<int>) returns (states: seq<Stores>, loaded: Loaded, segs: seq<Segment>)
    requires CodecOk(c)
    ensures |states| == 2 && Reloads(states, StagePrefix(), [])
    ensures |Under(states[0].keydb.Keys, StagePrefix())| == STALE_CAP + 1
    ensures ListsKeyDB(states[1].keydb, StagePrefix(), loaded, segs, StageKey, c)
    ensures FromPairs(Decoded(DecodeKey, loaded)) == map[(STALE_CAP, STALE_CAP) := ids]
  {
    StageKeysUnder();
    StageKeysDecode();
    states, loaded, segs := OneIsLeft(StagePrefix(), DecodeKey, StageKey, c, ids);
  }
}
