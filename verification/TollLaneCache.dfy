/** The lane cache: a primary map, an index from toll id to lane ids, a time to live
    and eviction of the least recently used entries. */
module TollLaneCache {
  import opened Options
  import opened Collections
  import opened Lru

  datatype Lane = Lane(laneId: int, tollId: int, detail: string)

  type Data = map<int, Entry<Lane>>

  type Index = map<int, seq<int>>

  predicate Indexed(index: Index, toll: int, id: int) {
    toll in index && id in index[toll]
  }

  /** Entries sit under their own lane id, and no entry is missing from the index. */
  predicate Covers(data: Data, index: Index) {
    forall id :: id in data ==> data[id].value.laneId == id && Indexed(index, data[id].value.tollId, id)
  }

  function Push(index: Index, toll: int, id: int): (r: Index)
    ensures forall t, x :: Indexed(r, t, x) <==> Indexed(index, t, x) || (t == toll && x == id)
  {
    index[toll := (if toll in index then index[toll] else []) + [id]]
  }

  lemma PushAtEnd(index: Index, toll: int, id: int)
    ensures var r := Push(index, toll, id);
            && r.Keys == index.Keys + {toll} && r[toll] == (if toll in index then index[toll] else []) + [id]
            && forall t :: t in index && t != toll ==> r[t] == index[t]
  {
  }

  function Retain(ids: seq<int>, id: int): (r: seq<int>)
    ensures forall x :: x in r <==> x in ids && x != id
  {
    if ids == [] then []
    else if ids[0] == id then Retain(ids[1..], id)
    else [ids[0]] + Retain(ids[1..], id)
  }

  /** The other ids stay, in their order and as often as they were there. */
  lemma {:induction false} RetainKeeps(ids: seq<int>, id: int)
    ensures Keeps(ids, x => x != id, (x: int, y: int) => x == y, Retain(ids, id))
    decreases |ids|
  {
    if ids != [] {
      var n := |ids| - 1;
      RetainKeeps(ids[..n], id);
      RetainAppend(ids[..n], ids[n], id);
      assert ids == ids[..n] + [ids[n]];
      KeepsNext(ids[..n], x => x != id, (x: int, y: int) => x == y, Retain(ids[..n], id), ids[n], Retain(ids, id));
    }
  }

  lemma {:induction false} RetainAppend(ids: seq<int>, x: int, id: int)
    ensures Retain(ids + [x], id) == Retain(ids, id) + if x == id then [] else [x]
    decreases |ids|
  {
    if ids != [] {
      assert (ids + [x])[1..] == ids[1..] + [x];
      RetainAppend(ids[1..], x, id);
    }
  }

  /** Drops one id from one list of the index, and the list when it becomes empty. */
  function Unindex(index: Index, toll: int, id: int): (r: Index)
    ensures forall t, x :: Indexed(r, t, x) <==> Indexed(index, t, x) && !(t == toll && x == id)
  {
    if toll !in index then index
    else
      var ids := Retain(index[toll], id);
      if ids == [] then index - {toll} else index[toll := ids]
  }

  /** `ids` are gone from the map, and each from the index list of its own toll. */
  ghost predicate Dropped(data: Data, index: Index, ids: set<int>, data': Data, index': Index) {
    && data' == data - ids
    && (forall t, x :: Indexed(index', t, x) <==>
          Indexed(index, t, x) && !(x in ids && x in data && data[x].value.tollId == t))
  }

  lemma DropNone(data: Data, index: Index, ids: set<int>, data1: Data, index1: Index, id: int)
    requires Dropped(data, index, ids, data1, index1) && id !in data1
    ensures Dropped(data, index, ids + {id}, data1, index1)
  {
  }

  lemma DropOne(data: Data, index: Index, ids: set<int>, data1: Data, index1: Index, id: int)
    requires Dropped(data, index, ids, data1, index1) && id in data1
    ensures Dropped(data, index, ids + {id}, data1 - {id}, Unindex(index1, data1[id].value.tollId, id))
  {
  }

  lemma SetOfEquals(ids: seq<int>, t: set<int>)
    requires forall x :: x in ids <==> x in t
    ensures SetOf(ids) == t
  {
    forall x ensures x in SetOf(ids) <==> x in t {
    }
  }

  // ------------------------------------------------------------ the cache

  /** The entry for every live id in `ids`, in that order and with repetitions. */
  function Hits(data: Data, ids: seq<int>, now: int, ttl: int): seq<Lane> {
    if ids == [] then []
    else
      var rest := Hits(data, ids[..|ids| - 1], now, ttl);
      var id := ids[|ids| - 1];
      if id in data && !Expired(data[id], now, ttl) then rest + [data[id].value] else rest
  }

  predicate IsFresh(data: Data, now: int, ttl: int, id: int) {
    id in data && now - data[id].createdAt < ttl
  }

  predicate IsLaneOf(data: Data, id: int, lane: Lane) {
    id in data && data[id].value == lane
  }

  /** The answer holds the lane of every unexpired id, in order and with repetitions. */
  lemma {:induction false} HitsKeep(data: Data, ids: seq<int>, now: int, ttl: int)
    ensures Keeps(ids, id => IsFresh(data, now, ttl, id), (id: int, lane: Lane) => IsLaneOf(data, id, lane),
                  Hits(data, ids, now, ttl))
    decreases |ids|
  {
    if ids != [] {
      var n := |ids| - 1;
      HitsKeep(data, ids[..n], now, ttl);
      assert ids == ids[..n] + [ids[n]];
      KeepsNext(ids[..n], id => IsFresh(data, now, ttl, id), (id: int, lane: Lane) => IsLaneOf(data, id, lane),
                Hits(data, ids[..n], now, ttl), ids[n], Hits(data, ids, now, ttl));
    }
  }

  function Stale(data: Data, ids: seq<int>, now: int, ttl: int): set<int> {
    set id | id in ids && id in data && Expired(data[id], now, ttl)
  }

  /** Entries named in `ids` that have not expired are marked as used at `now`, once
      per occurrence. */
  ghost predicate Touched(data: Data, ids: seq<int>, now: int, ttl: int, data': Data) {
    && data'.Keys == data.Keys
    && forall id :: id in data ==>
         data'[id] == if id in ids && !Expired(data[id], now, ttl)
                      then data[id].(lastAccess := now, accessCount := data[id].accessCount + multiset(ids)[id])
                      else data[id]
  }

  /** One more id.  Using an entry does not change when it expires. */
  lemma TouchedNext(data: Data, ids: seq<int>, i: nat, now: int, ttl: int, data': Data)
    requires i < |ids| && Touched(data, ids[..i], now, ttl, data')
    ensures var id, next := ids[i], ids[..i + 1];
            && (id in data' <==> id in data)
            && (id in data ==> data'[id].value == data[id].value
                               && Expired(data'[id], now, ttl) == Expired(data[id], now, ttl))
            && Hits(data, next, now, ttl) == Hits(data, ids[..i], now, ttl)
                 + (if id in data && !Expired(data[id], now, ttl) then [data[id].value] else [])
            && Stale(data, next, now, ttl) == Stale(data, ids[..i], now, ttl)
                 + (if id in data && Expired(data[id], now, ttl) then {id} else {})
            && Touched(data, next, now, ttl,
                 if id in data && !Expired(data[id], now, ttl)
                 then data'[id := Used(data'[id], now)] else data')
  {
    assert ids[..i + 1] == ids[..i] + [ids[i]];
    assert ids[..i + 1][..i] == ids[..i];
  }

  function AllExpired(data: Data, now: int, ttl: int): set<int> {
    set id | id in data && Expired(data[id], now, ttl)
  }

  /** The public operations, with the time at which they run. */
  datatype Op =
    | Put(lane: Lane, now: int)
    | Get(id: int, now: int)
    | GetByToll(toll: int, now: int)
    | Remove(id: int)
    | Cleanup(now: int)
    | Clear
    | ReplaceAll(lanes: seq<Lane>, now: int)

  function IdsOf(index: Index, toll: int): seq<int> {
    if toll in index then index[toll] else []
  }

  ghost predicate PutDropping(data: Data, index: Index, lane: Lane, now: int, removed: set<int>,
                              data': Data, index': Index)
  {
    Dropped(data[lane.laneId := Entry(lane, now, now, 0)], Push(index, lane.tollId, lane.laneId), removed,
            data', index')
  }

  /** Exactly the excess over the bound is removed, and nothing used later than what stays. */
  ghost predicate Evicted(full: Data, index: Index, removed: set<int>, maxTotal: nat, data': Data, index': Index) {
    && Dropped(full, index, removed, data', index')
    && removed <= full.Keys
    && |removed| == (if |full| <= maxTotal then 0 else |full| - maxTotal)
    && |data'| == |full| - |removed|
    && forall r, k :: r in removed && k in data' ==> full[r].lastAccess <= data'[k].lastAccess
  }

  lemma NothingEvicted(data: Data, index: Index, maxTotal: nat)
    requires |data| <= maxTotal
    ensures Evicted(data, index, {}, maxTotal, data, index)
  {
    assert data - {} == data;
  }

  /** What an operation may do to the two maps; which entries `Put` evicts is open. */
  ghost predicate Step(data: Data, index: Index, op: Op, data': Data, index': Index, ttl: int) {
    match op
    case Put(lane, now) =>
      exists removed :: PutDropping(data, index, lane, now, removed, data', index')
    case Get(id, now) =>
      index' == index
      && if id in data && Expired(data[id], now, ttl) then data' == data - {id}
         else Touched(data, [id], now, ttl, data')
    case GetByToll(toll, now) =>
      var ids := IdsOf(index, toll);
      exists mid :: Touched(data, ids, now, ttl, mid) && Dropped(mid, index, Stale(data, ids, now, ttl), data', index')
    case Remove(id) => Dropped(data, index, {id}, data', index')
    case Cleanup(now) =>
      Dropped(data, index, AllExpired(data, now, ttl), data', index')
    case Clear => (data', index') == (map[], map[])
    case ReplaceAll(lanes, now) => (data', index') == Rebuilt(lanes, now)
  }

  class TollLaneCache {
    var data: Data
    var tollLanes: Index
    const ttl: int
    const maxTotal: nat
    var totalEntries: nat
    var hits: nat
    var misses: nat
    var evictions: nat

    ghost predicate Valid()
      reads this
    {
      Covers(data, tollLanes) && totalEntries == |data|
    }

    constructor (ttl: int, maxTotal: nat)
      ensures Valid() && data == map[] && tollLanes == map[] && evictions == 0
    {
      this.ttl, this.maxTotal := ttl, maxTotal;
      data, tollLanes := map[], map[];
      totalEntries, hits, misses, evictions := 0, 0, 0, 0;
    }

    /** The map never stays above its bound, and exactly the excess goes, least
        recently used first. */
    method Put(lane: Lane, now: int) returns (ghost removed: set<int>)
      requires Valid()
      modifies this
      ensures Valid() && |data| <= maxTotal && evictions == old(evictions) + |removed|
      ensures Evicted(old(data)[lane.laneId := Entry(lane, now, now, 0)],
                      Push(old(tollLanes), lane.tollId, lane.laneId), removed, maxTotal, data, tollLanes)
      ensures hits == old(hits) && misses == old(misses)
    {
      var isNew := lane.laneId !in data;
      PutCovers(data, tollLanes, lane, now);
      data := data[lane.laneId := Entry(lane, now, now, 0)];
      tollLanes := Push(tollLanes, lane.tollId, lane.laneId);
      removed := {};
      if |data| > maxTotal {
        removed := EvictIfNeeded();
      } else {
        NothingEvicted(data, tollLanes, maxTotal);
      }
      if isNew {
        totalEntries := |data|;
      }
    }

    method EvictIfNeeded() returns (ghost removed: set<int>)
      requires Covers(data, tollLanes) && maxTotal < |data|
      modifies this`data, this`tollLanes, this`evictions, this`totalEntries
      ensures Covers(data, tollLanes) && Evicted(old(data), old(tollLanes), removed, maxTotal, data, tollLanes)
      ensures totalEntries == |data| && evictions == old(evictions) + |removed|
    {
      ghost var ages := Ages(data);
      AgesOf(data);
      var entries := AgesInOrder(Ages(data));
      var toRemove := |data| - maxTotal;
      removed := KeysOf(entries[..toRemove]);
      DropOldest(entries, toRemove);
      KeysOfSize(entries[..toRemove]);
      totalEntries := |data|;
      forall r, k | r in removed && k in data ensures old(data)[r].lastAccess <= old(data)[k].lastAccess {
        FirstAreOldest(ages, entries, toRemove, r, k);
      }
    }

    method DropOldest(entries: seq<Aged>, n: nat)
      requires n <= |entries| && KeysDistinct(entries)
      requires forall e :: e in entries ==> e.0 in data
      modifies this`data, this`tollLanes, this`evictions
      ensures Dropped(old(data), old(tollLanes), KeysOf(entries[..n]), data, tollLanes)
      ensures |data| == |old(data)| - n && evictions == old(evictions) + n
      ensures KeysOf(entries[..n]) <= old(data).Keys
    {
      for i := 0 to n
        invariant Dropped(old(data), old(tollLanes), KeysOf(entries[..i]), data, tollLanes)
        invariant |data| == |old(data)| - i && evictions == old(evictions) + i
      {
        var key := entries[i].0;
        assert entries[i] in entries;
        KeysOfNext(entries, i);
        DropOne(old(data), old(tollLanes), KeysOf(entries[..i]), data, tollLanes, key);
        Drop(key);
        evictions := evictions + 1;
      }
    }

    /** Takes one entry out of the map and its id out of the index. */
    method Drop(id: int)
      requires id in data
      modifies this`data, this`tollLanes
      ensures data == old(data) - {id} && |data| == |old(data)| - 1
      ensures tollLanes == Unindex(old(tollLanes), old(data)[id].value.tollId, id)
    {
      tollLanes := Unindex(tollLanes, data[id].value.tollId, id);
      assert (data - {id}).Keys == data.Keys - {id};
      data := data - {id};
    }

    /** A live entry is returned and marked; an expired one is removed from the map
        only -- its ids stay behind in the index. */
    method Get(id: int, now: int) returns (found: Option<Lane>)
      requires Valid()
      modifies this
      ensures Valid() && tollLanes == old(tollLanes) && evictions == old(evictions)
      ensures found.Some? <==> id in old(data) && now - old(data)[id].createdAt < ttl
      ensures found.Some? ==>
                var e := old(data)[id];
                && found.value == e.value
                && data == old(data)[id := e.(lastAccess := now, accessCount := e.accessCount + 1)]
      ensures found == None ==> data == old(data) - {id}
      ensures Step(old(data), old(tollLanes), Op.Get(id, now), data, tollLanes, ttl)
      ensures hits + misses == old(hits) + old(misses) + 1 && (hits == old(hits) + 1 <==> found.Some?)
    {
      if id in data {
        var e := data[id];
        if !Expired(e, now, ttl) {
          data := data[id := Used(e, now)];
          hits := hits + 1;
          assert |data| == |old(data)| by {
            assert data.Keys == old(data).Keys;
          }
          return Some(e.value);
        } else {
          data := data - {id};
          totalEntries := |data|;
        }
      }
      misses := misses + 1;
      assert data == old(data) - {id};
      return None;
    }

    method GetByTollId(toll: int, now: int) returns (lanes: seq<Lane>)
      requires Valid()
      modifies this
      ensures Valid()
      ensures lanes == Hits(old(data), IdsOf(old(tollLanes), toll), now, ttl) && hits == old(hits) + |lanes|
      ensures Step(old(data), old(tollLanes), Op.GetByToll(toll, now), data, tollLanes, ttl)
      ensures forall id :: id in data <==>
                id in old(data) && (now - old(data)[id].createdAt < ttl
                                    || !(toll in old(tollLanes) && id in old(tollLanes)[toll]))
      ensures misses == old(misses) && evictions == old(evictions)
    {
      var ids := IdsOf(tollLanes, toll);
      var expired;
      lanes, expired := TouchAll(ids, now);
      SetOfEquals(expired, Stale(old(data), ids, now, ttl));
      RemoveExpired(expired);
    }

    method TouchAll(ids: seq<int>, now: int) returns (lanes: seq<Lane>, expired: seq<int>)
      modifies this`data, this`hits
      ensures lanes == Hits(old(data), ids, now, ttl) && hits == old(hits) + |lanes|
      ensures Touched(old(data), ids, now, ttl, data)
      ensures forall x :: x in expired <==> x in Stale(old(data), ids, now, ttl)
    {
      lanes, expired := [], [];
      for i := 0 to |ids|
        invariant lanes == Hits(old(data), ids[..i], now, ttl) && hits == old(hits) + |lanes|
        invariant Touched(old(data), ids[..i], now, ttl, data)
        invariant forall x :: x in expired <==> x in Stale(old(data), ids[..i], now, ttl)
      {
        var id := ids[i];
        TouchedNext(old(data), ids, i, now, ttl, data);
        if id in data {
          var e := data[id];
          if !Expired(e, now, ttl) {
            data := data[id := Used(e, now)];
            lanes := lanes + [e.value];
            hits := hits + 1;
          } else {
            expired := expired + [id];
          }
        }
      }
      assert ids[..|ids|] == ids;
    }

    /** Removes the listed entries and their index ids; a repeated id is skipped. */
    method RemoveExpired(expired: seq<int>)
      requires Covers(data, tollLanes) && totalEntries == |data|
      modifies this`data, this`tollLanes, this`totalEntries
      ensures Valid()
      ensures Dropped(old(data), old(tollLanes), SetOf(expired), data, tollLanes)
    {
      DropAll(expired);
      DroppedCovers(old(data), old(tollLanes), SetOf(expired), data, tollLanes);
      if |expired| > 0 {
        totalEntries := |data|;
      } else {
        assert data == old(data);
      }
    }

    method DropAll(ids: seq<int>)
      modifies this`data, this`tollLanes
      ensures Dropped(old(data), old(tollLanes), SetOf(ids), data, tollLanes)
    {
      for i := 0 to |ids|
        invariant Dropped(old(data), old(tollLanes), SetOf(ids[..i]), data, tollLanes)
      {
        assert SetOf(ids[..i + 1]) == SetOf(ids[..i]) + {ids[i]};
        if ids[i] in data {
          DropOne(old(data), old(tollLanes), SetOf(ids[..i]), data, tollLanes, ids[i]);
          Drop(ids[i]);
        } else {
          DropNone(old(data), old(tollLanes), SetOf(ids[..i]), data, tollLanes, ids[i]);
        }
      }
      assert ids[..|ids|] == ids;
    }

    method Remove(id: int) returns (removed: bool)
      requires Valid()
      modifies this
      ensures Valid() && (removed <==> id in old(data))
      ensures Dropped(old(data), old(tollLanes), {id}, data, tollLanes)
      ensures hits == old(hits) && misses == old(misses) && evictions == old(evictions)
    {
      removed := id in data;
      if removed {
        DropOne(data, tollLanes, {}, data, tollLanes, id);
        Drop(id);
        totalEntries := |data|;
      }
      DroppedCovers(old(data), old(tollLanes), {id}, data, tollLanes);
    }

    method CleanupExpired(now: int) returns (count: nat)
      requires Valid()
      modifies this
      ensures Valid()
      ensures Dropped(old(data), old(tollLanes), AllExpired(old(data), now, ttl), data, tollLanes)
      ensures count == |AllExpired(old(data), now, ttl)|
      ensures forall id :: id in data <==> id in old(data) && now - old(data)[id].createdAt < ttl
      ensures hits == old(hits) && misses == old(misses) && evictions == old(evictions)
    {
      var expired: seq<int> := [];
      var left := AllExpired(data, now, ttl);
      ghost var gone := left;
      while left != {}
        modifies {}
        invariant left <= gone && |expired| + |left| == |gone|
        invariant forall x :: x in expired <==> x in gone - left
        decreases |left|
      {
        NonEmpty(left);
        var id :| id in left;
        expired := expired + [id];
        left := left - {id};
      }
      SetOfEquals(expired, gone);
      count := |expired|;
      RemoveExpired(expired);
    }

    method Clear()
      modifies this
      ensures Valid() && data == map[] && tollLanes == map[]
      ensures hits == old(hits) && misses == old(misses) && evictions == old(evictions)
    {
      data, tollLanes, totalEntries := map[], map[], 0;
    }

    /** Builds both maps from scratch; the bound is not applied here. */
    method ReplaceAll(lanes: seq<Lane>, now: int)
      modifies this
      ensures Valid() && (data, tollLanes) == Rebuilt(lanes, now)
      ensures FromList(lanes, now, data, tollLanes)
      ensures hits == old(hits) && misses == old(misses) && evictions == old(evictions)
    {
      var newData, newIndex := Rebuild(lanes, now);
      RebuiltFromList(lanes, now);
      data, tollLanes, totalEntries := newData, newIndex, |newData|;
    }
  }

  method Rebuild(lanes: seq<Lane>, now: int) returns (data: Data, index: Index)
    ensures (data, index) == Rebuilt(lanes, now) && Covers(data, index)
  {
    data, index := map[], map[];
    for i := 0 to |lanes|
      invariant (data, index) == Rebuilt(lanes[..i], now) && Covers(data, index)
    {
      assert lanes[..i + 1][..i] == lanes[..i];
      PutCovers(data, index, lanes[i], now);
      data := data[lanes[i].laneId := Entry(lanes[i], now, now, 0)];
      index := Push(index, lanes[i].tollId, lanes[i].laneId);
    }
    assert lanes[..|lanes|] == lanes;
  }

  function Rebuilt(lanes: seq<Lane>, now: int): (Data, Index) {
    if lanes == [] then (map[], map[])
    else
      var last := lanes[|lanes| - 1];
      var (data, index) := Rebuilt(lanes[..|lanes| - 1], now);
      (data[last.laneId := Entry(last, now, now, 0)], Push(index, last.tollId, last.laneId))
  }

  /** No later lane of the list has the same id. */
  ghost predicate IsLastOfId(lanes: seq<Lane>, i: int) {
    0 <= i < |lanes| && forall j :: i < j < |lanes| ==> lanes[j].laneId != lanes[i].laneId
  }

  /** The ids of the toll's lanes, in the order of the list. */
  ghost predicate ListsInOrder(lanes: seq<Lane>, toll: int, ids: seq<int>) {
    Keeps(lanes, (l: Lane) => l.tollId == toll, (l: Lane, id: int) => l.laneId == id, ids)
  }

  lemma ListsNext(lanes: seq<Lane>, last: Lane, toll: int, ids: seq<int>)
    requires ListsInOrder(lanes, toll, ids)
    ensures ListsInOrder(lanes + [last], toll, if last.tollId == toll then ids + [last.laneId] else ids)
  {
    KeepsNext(lanes, (l: Lane) => l.tollId == toll, (l: Lane, id: int) => l.laneId == id, ids, last,
              if last.tollId == toll then ids + [last.laneId] else ids);
  }

  lemma {:induction false} NoneListed(lanes: seq<Lane>, toll: int)
    requires forall l :: l in lanes ==> l.tollId != toll
    ensures ListsInOrder(lanes, toll, [])
    decreases |lanes|
  {
    if lanes != [] {
      var n := |lanes| - 1;
      NoneListed(lanes[..n], toll);
      assert lanes == lanes[..n] + [lanes[n]];
      ListsNext(lanes[..n], lanes[n], toll, []);
    }
  }

  /** Both maps as the list gives them. */
  ghost predicate FromList(lanes: seq<Lane>, now: int, data: Data, index: Index) {
    && data.Keys == (set l | l in lanes :: l.laneId)
    && (forall i :: IsLastOfId(lanes, i) ==> data[lanes[i].laneId] == Entry(lanes[i], now, now, 0))
    && index.Keys == (set l | l in lanes :: l.tollId)
    && forall t :: t in index ==> ListsInOrder(lanes, t, index[t])
  }

  lemma DataFromList(lanes: seq<Lane>, last: Lane, now: int, data: Data, index: Index)
    requires FromList(lanes, now, data, index)
    ensures var all, data' := lanes + [last], data[last.laneId := Entry(last, now, now, 0)];
            && data'.Keys == (set l | l in all :: l.laneId)
            && forall i :: IsLastOfId(all, i) ==> data'[all[i].laneId] == Entry(all[i], now, now, 0)
  {
    var all, data' := lanes + [last], data[last.laneId := Entry(last, now, now, 0)];
    forall i | IsLastOfId(all, i) ensures data'[all[i].laneId] == Entry(all[i], now, now, 0) {
      if i < |lanes| {
        assert all[|lanes|] == last;
        assert forall j :: i < j < |lanes| ==> lanes[j] == all[j];
        assert IsLastOfId(lanes, i);
      }
    }
  }

  lemma IndexFromList(lanes: seq<Lane>, last: Lane, now: int, data: Data, index: Index)
    requires FromList(lanes, now, data, index)
    ensures var all, index' := lanes + [last], Push(index, last.tollId, last.laneId);
            && index'.Keys == (set l | l in all :: l.tollId)
            && forall t :: t in index' ==> ListsInOrder(all, t, index'[t])
  {
    var all, index' := lanes + [last], Push(index, last.tollId, last.laneId);
    PushAtEnd(index, last.tollId, last.laneId);
    forall t | t in index' ensures ListsInOrder(all, t, index'[t]) {
      if t !in index {
        NoneListed(lanes, t);
      }
      ListsNext(lanes, last, t, if t in index then index[t] else []);
    }
  }

  lemma FromListNext(lanes: seq<Lane>, last: Lane, now: int, data: Data, index: Index)
    requires FromList(lanes, now, data, index)
    ensures FromList(lanes + [last], now, data[last.laneId := Entry(last, now, now, 0)],
                     Push(index, last.tollId, last.laneId))
  {
    DataFromList(lanes, last, now, data, index);
    IndexFromList(lanes, last, now, data, index);
  }

  lemma FromEmptyList(now: int)
    ensures FromList([], now, map[], map[])
  {
  }

  lemma {:induction false} RebuiltFromList(lanes: seq<Lane>, now: int)
    ensures FromList(lanes, now, Rebuilt(lanes, now).0, Rebuilt(lanes, now).1)
    decreases |lanes|
  {
    if lanes == [] {
      FromEmptyList(now);
    } else {
      var n := |lanes| - 1;
      RebuiltFromList(lanes[..n], now);
      assert lanes == lanes[..n] + [lanes[n]];
      FromListNext(lanes[..n], lanes[n], now, Rebuilt(lanes[..n], now).0, Rebuilt(lanes[..n], now).1);
    }
  }

  lemma PutCovers(data: Data, index: Index, lane: Lane, now: int)
    requires Covers(data, index)
    ensures Covers(data[lane.laneId := Entry(lane, now, now, 0)], Push(index, lane.tollId, lane.laneId))
  {
  }

  lemma DroppedCovers(data: Data, index: Index, ids: set<int>, data': Data, index': Index)
    requires Covers(data, index) && Dropped(data, index, ids, data', index')
    ensures Covers(data', index')
  {
  }

  /** What `Put` promises is a step, whatever it evicts. */
  lemma PutIsStep(data: Data, index: Index, lane: Lane, now: int, removed: set<int>, maxTotal: nat,
                  data': Data, index': Index, ttl: int)
    requires Covers(data, index)
    requires Evicted(data[lane.laneId := Entry(lane, now, now, 0)], Push(index, lane.tollId, lane.laneId), removed,
                     maxTotal, data', index')
    ensures Step(data, index, Op.Put(lane, now), data', index', ttl)
  {
    assert PutDropping(data, index, lane, now, removed, data', index');
  }
}
