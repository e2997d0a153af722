/** The toll cache: one map with a time to live and eviction of the least recently used. */
module TollCache {
  import opened Options
  import opened Collections
  import opened Lru

  datatype Toll = Toll(tollId: int, tollCode: string, detail: string)

  type Data = map<int, Entry<Toll>>

  /** Each toll sits under its own id. */
  ghost predicate Keyed(data: Data) {
    forall id :: id in data ==> data[id].value.tollId == id
  }

  lemma WithoutOne(data: Data, id: int)
    requires id in data
    ensures |data - {id}| == |data| - 1
  {
    assert (data - {id}).Keys == data.Keys - {id};
    assert |(data - {id}).Keys| == |data - {id}| && |data.Keys| == |data|;
  }

  lemma DropNext(full: Data, entries: seq<Aged>, i: nat)
    requires i < |entries| && KeysDistinct(entries) && entries[i].0 in full
    ensures var data := full - KeysOf(entries[..i]);
            && entries[i].0 in data && full - KeysOf(entries[..i + 1]) == data - {entries[i].0}
            && |data - {entries[i].0}| == |data| - 1
    ensures KeysOf(entries[..i]) <= full.Keys ==> KeysOf(entries[..i + 1]) <= full.Keys
  {
    KeysOfNext(entries, i);
    WithoutOne(full - KeysOf(entries[..i]), entries[i].0);
  }

  /** Exactly the excess over the bound is removed, and nothing used later than what stays. */
  ghost predicate Evicted(full: Data, removed: set<int>, maxTotal: nat, data': Data) {
    && removed <= full.Keys && data' == full - removed
    && |removed| == (if |full| <= maxTotal then 0 else |full| - maxTotal)
    && |data'| == |full| - |removed|
    && forall r, k :: r in removed && k in data' ==> full[r].lastAccess <= data'[k].lastAccess
  }

  /** Unexpired entries are marked as used, expired ones are gone. */
  function Swept(data: Data, now: int, ttl: int): Data {
    map id | id in data && !Expired(data[id], now, ttl) :: Used(data[id], now)
  }

  function Live(data: Data, now: int, ttl: int): Data {
    map id | id in data && !Expired(data[id], now, ttl) :: data[id]
  }

  ghost predicate SweptSoFar(all: Data, left: set<int>, now: int, ttl: int, data: Data) {
    && (forall id :: id in all && (id in left || !Expired(all[id], now, ttl)) ==> id in data)
    && forall id :: id in data ==> id in all && data[id] == all[id] && (id in left || !Expired(all[id], now, ttl))
  }

  lemma SweptIsLive(all: Data, now: int, ttl: int, data: Data)
    requires SweptSoFar(all, {}, now, ttl, data)
    ensures data == Live(all, now, ttl)
  {
    var live := Live(all, now, ttl);
    forall id ensures id in data <==> id in live {
      assert id in all && !Expired(all[id], now, ttl) ==> id in data;
    }
    forall id | id in data ensures data[id] == live[id] {
    }
    assert data.Keys == live.Keys;
    assert data == live;
  }

  function Fresh(tolls: seq<Toll>, now: int): seq<(int, Entry<Toll>)> {
    seq(|tolls|, i requires 0 <= i < |tolls| => (tolls[i].tollId, Entry(tolls[i], now, now, 0)))
  }

  /** The new map: the last toll with an id wins. */
  function Replaced(tolls: seq<Toll>, now: int): Data {
    FromPairs(Fresh(tolls, now))
  }

  /** No later toll of the list has the same id. */
  ghost predicate IsLastOfId(tolls: seq<Toll>, i: int) {
    0 <= i < |tolls| && forall j :: i < j < |tolls| ==> tolls[j].tollId != tolls[i].tollId
  }

  lemma ReplacedFromList(tolls: seq<Toll>, now: int)
    ensures Replaced(tolls, now).Keys == set t | t in tolls :: t.tollId
    ensures forall i :: IsLastOfId(tolls, i) ==> Replaced(tolls, now)[tolls[i].tollId] == Entry(tolls[i], now, now, 0)
  {
    var pairs, data := Fresh(tolls, now), Replaced(tolls, now);
    FromPairsIsLast(pairs);
    forall i | 0 <= i < |tolls| ensures tolls[i].tollId in data {
      assert pairs[i].0 in FromPairs(pairs);
    }
    forall k | k in data ensures exists t :: t in tolls && t.tollId == k {
      var j :| LastFor(pairs, j, k) && FromPairs(pairs)[k] == pairs[j].1;
      assert tolls[j] in tolls;
    }
    forall i | IsLastOfId(tolls, i) ensures data[tolls[i].tollId] == Entry(tolls[i], now, now, 0) {
      var k := tolls[i].tollId;
      var j :| LastFor(pairs, j, k) && FromPairs(pairs)[k] == pairs[j].1;
      assert pairs[i].0 == k && pairs[j].0 == tolls[j].tollId;
    }
  }

  lemma ReplacedNext(tolls: seq<Toll>, now: int, i: nat)
    requires i < |tolls|
    ensures Replaced(tolls[..i + 1], now)
         == Replaced(tolls[..i], now)[tolls[i].tollId := Entry(tolls[i], now, now, 0)]
  {
    assert Fresh(tolls[..i + 1], now)[..i] == Fresh(tolls[..i], now);
  }

  class TollCache {
    var data: Data
    const ttl: int
    const maxTotal: nat
    var totalEntries: nat
    var hits: nat
    var misses: nat
    var evictions: nat

    /** The published number of entries is the size of the map. */
    ghost predicate Valid()
      reads this
    {
      Keyed(data) && totalEntries == |data|
    }

    constructor (ttl: int, maxTotal: nat)
      ensures Valid() && data == map[] && evictions == 0
    {
      this.ttl, this.maxTotal := ttl, maxTotal;
      data := map[];
      totalEntries, hits, misses, evictions := 0, 0, 0, 0;
    }

    method Put(toll: Toll, now: int) returns (ghost removed: set<int>)
      requires Valid()
      modifies this
      ensures Valid() && |data| <= maxTotal && evictions == old(evictions) + |removed|
      ensures Evicted(old(data)[toll.tollId := Entry(toll, now, now, 0)], removed, maxTotal, data)
      ensures hits == old(hits) && misses == old(misses)
    {
      var isNew := toll.tollId !in data;
      data := data[toll.tollId := Entry(toll, now, now, 0)];
      removed := {};
      ghost var full := data;
      if |data| > maxTotal {
        removed := EvictIfNeeded();
      } else {
        assert data - {} == data;
      }
      if isNew {
        totalEntries := |data|;
      } else {
        SameSize(old(data), toll.tollId, Entry(toll, now, now, 0));
      }
    }

    method EvictIfNeeded() returns (ghost removed: set<int>)
      requires maxTotal < |data|
      modifies this`data, this`evictions, this`totalEntries
      ensures Evicted(old(data), removed, maxTotal, data)
      ensures totalEntries == |data| && evictions == old(evictions) + |removed|
    {
      ghost var full := data;
      AgesOf(data);
      var entries := AgesInOrder(Ages(data));
      var toRemove := |data| - maxTotal;
      removed := KeysOf(entries[..toRemove]);
      KeysOfSize(entries[..toRemove]);
      DropOldest(entries, toRemove);
      totalEntries := |data|;
      forall r, k | r in removed && k in data ensures full[r].lastAccess <= data[k].lastAccess {
        FirstAreOldest(Ages(full), entries, toRemove, r, k);
      }
    }

    method DropOldest(entries: seq<Aged>, n: nat)
      requires n <= |entries| && KeysDistinct(entries) && forall e :: e in entries ==> e.0 in data
      modifies this`data, this`evictions
      ensures data == old(data) - KeysOf(entries[..n]) && KeysOf(entries[..n]) <= old(data).Keys
      ensures |data| == |old(data)| - n && evictions == old(evictions) + n
    {
      ghost var full := data;
      for i := 0 to n
        invariant data == full - KeysOf(entries[..i]) && |data| == |full| - i
        invariant KeysOf(entries[..i]) <= full.Keys
        invariant evictions == old(evictions) + i
      {
        var key := entries[i].0;
        DropNext(full, entries, i);
        data := data - {key};
        evictions := evictions + 1;
      }
    }

    /** A live toll is returned and marked; an expired one is removed. */
    method Get(id: int, now: int) returns (found: Option<Toll>)
      requires Valid()
      modifies this
      ensures Valid() && evictions == old(evictions)
      ensures found == if id in old(data) && now - old(data)[id].createdAt < ttl then Some(old(data)[id].value)
                       else None
      ensures found == None ==> data == if id in old(data) then old(data) - {id} else old(data)
      ensures found.Some? ==>
                var e := old(data)[id];
                data == old(data)[id := e.(lastAccess := now, accessCount := e.accessCount + 1)]
      ensures if found.Some? then hits == old(hits) + 1 && misses == old(misses)
              else hits == old(hits) && misses == old(misses) + 1
    {
      if id in data {
        var e := data[id];
        if !Expired(e, now, ttl) {
          SameSize(data, id, Used(e, now));
          data := data[id := Used(e, now)];
          hits := hits + 1;
          return Some(e.value);
        }
        data := data - {id};
        totalEntries := |data|;
      }
      misses := misses + 1;
      return None;
    }

    /** Some live toll with the code, if there is one; expired ones stay. */
    method GetByCode(code: string, now: int) returns (found: Option<Toll>)
      requires Valid()
      modifies this
      ensures Valid() && evictions == old(evictions)
      ensures found.Some? ==>
                exists id :: id in old(data) &&
                  var e := old(data)[id];
                  && now - e.createdAt < ttl && e.value == found.value && found.value.tollCode == code
                  && data == old(data)[id := e.(lastAccess := now, accessCount := e.accessCount + 1)]
      ensures found == None ==>
                data == old(data)
                && forall id :: id in data ==> now - data[id].createdAt >= ttl || data[id].value.tollCode != code
      ensures if found.Some? then hits == old(hits) + 1 && misses == old(misses)
              else hits == old(hits) && misses == old(misses) + 1
    {
      var left := data.Keys;
      while left != {}
        invariant left <= data.Keys && Valid() && data == old(data)
        invariant hits == old(hits) && misses == old(misses) && evictions == old(evictions)
        invariant forall id :: id in data && id !in left ==>
                    Expired(data[id], now, ttl) || data[id].value.tollCode != code
        decreases left
      {
        NonEmpty(left);
        var id :| id in left;
        left := left - {id};
        var e := data[id];
        if !Expired(e, now, ttl) && e.value.tollCode == code {
          SameSize(data, id, Used(e, now));
          data := data[id := Used(e, now)];
          hits := hits + 1;
          return Some(e.value);
        }
      }
      misses := misses + 1;
      return None;
    }

    /** All live tolls, each once and marked; the expired ones are removed. */
    method GetAll(now: int) returns (tolls: seq<Toll>)
      requires Valid()
      modifies this`data, this`totalEntries
      ensures Valid() && |tolls| == |data|
      ensures forall id :: id in data <==> id in old(data) && now - old(data)[id].createdAt < ttl
      ensures forall id :: id in data ==>
                data[id] == old(data)[id].(lastAccess := now, accessCount := old(data)[id].accessCount + 1)
      ensures forall t :: t in tolls <==> t.tollId in data && data[t.tollId].value == t
    {
      data := Swept(data, now, ttl);
      tolls := [];
      var left := data.Keys;
      while left != {}
        invariant left <= data.Keys && |tolls| + |left| == |data.Keys|
        invariant forall t :: t in tolls <==> t.tollId in data && t.tollId !in left && data[t.tollId].value == t
        invariant data == Swept(old(data), now, ttl)
        decreases left
      {
        NonEmpty(left);
        var id :| id in left;
        left := left - {id};
        tolls := tolls + [data[id].value];
      }
      totalEntries := |data|;
    }

    method Remove(id: int) returns (was: bool)
      requires Valid()
      modifies this`data, this`totalEntries
      ensures Valid() && was == (id in old(data)) && data == old(data) - {id}
    {
      was := id in data;
      if was {
        data := data - {id};
        totalEntries := |data|;
      } else {
        assert data - {id} == data;
      }
    }

    /** Removes exactly the expired entries and counts them. */
    method CleanupExpired(now: int) returns (count: nat)
      requires Valid()
      modifies this`data, this`totalEntries
      ensures Valid() && count == |old(data)| - |data|
      ensures forall id :: id in data <==> id in old(data) && now - old(data)[id].createdAt < ttl
      ensures forall id :: id in data ==> data[id] == old(data)[id]
    {
      ghost var all := data;
      count := 0;
      var left := data.Keys;
      while left != {}
        invariant left <= data.Keys <= all.Keys && count + |data| == |all| == totalEntries
        invariant SweptSoFar(all, left, now, ttl, data)
        decreases left
      {
        NonEmpty(left);
        var id :| id in left;
        left := left - {id};
        if Expired(data[id], now, ttl) {
          WithoutOne(data, id);
          data := data - {id};
          count := count + 1;
        }
      }
      SweptIsLive(all, now, ttl, data);
      if count > 0 {
        totalEntries := |data|;
      }
    }

    method Clear()
      requires Valid()
      modifies this`data, this`totalEntries
      ensures Valid() && data == map[]
    {
      data, totalEntries := map[], 0;
    }

    method ReplaceAll(tolls: seq<Toll>, now: int)
      requires Valid()
      modifies this`data, this`totalEntries
      ensures Valid() && data == Replaced(tolls, now)
      ensures data.Keys == set t | t in tolls :: t.tollId
      ensures forall i :: IsLastOfId(tolls, i) ==> data[tolls[i].tollId] == Entry(tolls[i], now, now, 0)
    {
      var newData: Data := map[];
      for i := 0 to |tolls|
        invariant newData == Replaced(tolls[..i], now) && Keyed(newData)
      {
        ReplacedNext(tolls, now, i);
        newData := newData[tolls[i].tollId := Entry(tolls[i], now, now, 0)];
      }
      assert tolls[..|tolls|] == tolls;
      ReplacedFromList(tolls, now);
      data, totalEntries := newData, |newData|;
    }
  }

  lemma SameSize(data: Data, id: int, e: Entry<Toll>)
    requires id in data
    ensures |data[id := e]| == |data|
  {
    assert data[id := e].Keys == data.Keys;
    assert |data[id := e].Keys| == |data[id := e]| && |data.Keys| == |data|;
  }
}
