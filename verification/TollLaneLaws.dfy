/** The index agrees with the primary map in every reachable state. */
module TollLaneLaws {
  import opened Lru
  import opened TollLaneCache

  /** Each lane id belongs to one toll, in both maps. */
  ghost predicate Homed(data: Data, index: Index, home: int -> int) {
    && (forall t, x :: Indexed(index, t, x) ==> home(x) == t)
    && (forall id :: id in data ==> home(id) == data[id].value.tollId)
  }

  ghost predicate OpHomed(op: Op, home: int -> int) {
    match op
    case Put(lane, _) => home(lane.laneId) == lane.tollId
    case ReplaceAll(lanes, _) => forall l :: l in lanes ==> home(l.laneId) == l.tollId
    case _ => true
  }

  datatype Maps = Maps(data: Data, index: Index)

  /** A run of the cache: the maps before and after every operation. */
  ghost predicate IsRun(states: seq<Maps>, ops: seq<Op>, ttl: int) {
    && |states| == |ops| + 1
    && states[0] == Maps(map[], map[])
    && forall i :: 0 <= i < |ops| ==>
         Step(states[i].data, states[i].index, ops[i], states[i + 1].data, states[i + 1].index, ttl)
  }

  lemma {:induction false} RebuiltOk(lanes: seq<Lane>, now: int, home: int -> int)
    ensures var (data, index) := Rebuilt(lanes, now);
            Covers(data, index)
            && ((forall l :: l in lanes ==> home(l.laneId) == l.tollId) ==> Homed(data, index, home))
    decreases |lanes|
  {
    if lanes != [] {
      var n := |lanes| - 1;
      RebuiltOk(lanes[..n], now, home);
      assert forall l :: l in lanes <==> l in lanes[..n] || l == lanes[n];
    }
  }

  lemma StepKeepsCovers(data: Data, index: Index, op: Op, data': Data, index': Index, ttl: int)
    requires Covers(data, index) && Step(data, index, op, data', index', ttl)
    ensures Covers(data', index')
  {
    match op
    case ReplaceAll(lanes, now) => RebuiltOk(lanes, now, x => 0);
    case _ =>
  }

  lemma StepKeepsHomes(data: Data, index: Index, op: Op, data': Data, index': Index, ttl: int, home: int -> int)
    requires Homed(data, index, home) && OpHomed(op, home) && Step(data, index, op, data', index', ttl)
    ensures Homed(data', index', home)
  {
    match op
    case ReplaceAll(lanes, now) => RebuiltOk(lanes, now, home);
    case _ =>
  }

  lemma {:induction false} RunKeepsMaps(states: seq<Maps>, ops: seq<Op>, ttl: int, home: int -> int, n: nat)
    requires IsRun(states, ops, ttl) && n <= |ops| && forall op :: op in ops ==> OpHomed(op, home)
    ensures Covers(states[n].data, states[n].index) && Homed(states[n].data, states[n].index, home)
  {
    if n > 0 {
      RunKeepsMaps(states, ops, ttl, home, n - 1);
      var i := n - 1;
      assert OpHomed(ops[i], home);
      StepKeepsCovers(states[i].data, states[i].index, ops[i], states[i + 1].data, states[i + 1].index, ttl);
      StepKeepsHomes(states[i].data, states[i].index, ops[i], states[i + 1].data, states[i + 1].index, ttl, home);
    }
  }

  // ------------------------------------------------------------ lookups

  /** The plain filter of the primary map that a lookup by toll stands for. */
  ghost predicate IsLive(data: Data, toll: int, now: int, ttl: int, lane: Lane) {
    exists id :: id in data && data[id].value == lane && lane.tollId == toll && !Expired(data[id], now, ttl)
  }

  /** A live entry of another toll that the index still lists under `toll`. */
  ghost predicate IsForeign(data: Data, index: Index, toll: int, now: int, ttl: int, id: int) {
    Indexed(index, toll, id) && id in data && data[id].value.tollId != toll && !Expired(data[id], now, ttl)
  }

  lemma {:induction false} HitsAre(data: Data, ids: seq<int>, now: int, ttl: int, lane: Lane)
    ensures lane in Hits(data, ids, now, ttl)
            <==> exists id :: id in ids && id in data && !Expired(data[id], now, ttl) && data[id].value == lane
    decreases |ids|
  {
    if ids != [] {
      var n := |ids| - 1;
      HitsAre(data, ids[..n], now, ttl, lane);
      assert forall x :: x in ids <==> x in ids[..n] || x == ids[n];
      assert forall x :: x in ids[..n] ==> x in ids;
    }
  }

  /** No live entry of the toll is ever missing from the answer. */
  lemma LookupMissesNothing(data: Data, index: Index, toll: int, now: int, ttl: int, lane: Lane)
    requires Covers(data, index) && IsLive(data, toll, now, ttl, lane)
    ensures lane in Hits(data, IdsOf(index, toll), now, ttl)
  {
    HitsAre(data, IdsOf(index, toll), now, ttl, lane);
  }

  ghost predicate LookupExact(data: Data, index: Index, toll: int, now: int, ttl: int) {
    forall lane :: lane in Hits(data, IdsOf(index, toll), now, ttl) <==> IsLive(data, toll, now, ttl, lane)
  }

  /** Exactly when a lookup is the plain filter: no id under the toll belongs to a live
      entry of another toll. */
  lemma LookupExactIff(data: Data, index: Index, toll: int, now: int, ttl: int)
    requires Covers(data, index)
    ensures LookupExact(data, index, toll, now, ttl) <==> forall id :: !IsForeign(data, index, toll, now, ttl, id)
  {
    var ids := IdsOf(index, toll);
    if forall id :: !IsForeign(data, index, toll, now, ttl, id) {
      forall lane ensures lane in Hits(data, ids, now, ttl) <==> IsLive(data, toll, now, ttl, lane) {
        HitsAre(data, ids, now, ttl, lane);
        if lane in Hits(data, ids, now, ttl) {
          var id :| id in ids && id in data && !Expired(data[id], now, ttl) && data[id].value == lane;
          assert !IsForeign(data, index, toll, now, ttl, id);
        }
      }
    } else {
      var id :| IsForeign(data, index, toll, now, ttl, id);
      var lane := data[id].value;
      HitsAre(data, ids, now, ttl, lane);
      assert !IsLive(data, toll, now, ttl, lane);
    }
  }

  /** When every lane id keeps its toll, each lookup in each reachable state returns
      exactly the unexpired entries of that toll, despite duplicates and stale ids. */
  lemma ReachableLookupExact(states: seq<Maps>, ops: seq<Op>, ttl: int, home: int -> int, toll: int, now: int)
    requires IsRun(states, ops, ttl) && forall op :: op in ops ==> OpHomed(op, home)
    ensures LookupExact(states[|ops|].data, states[|ops|].index, toll, now, ttl)
  {
    RunKeepsMaps(states, ops, ttl, home, |ops|);
    LookupExactIff(states[|ops|].data, states[|ops|].index, toll, now, ttl);
  }

  /** A lane that moves to another toll shows up under the old one, too. */
  lemma MovedLaneIsForeign(data: Data, index: Index, lane: Lane, now: int, ttl: int)
    requires Covers(data, index) && lane.laneId in data && 0 < ttl
    requires data[lane.laneId].value.tollId != lane.tollId
    ensures var before := data[lane.laneId].value.tollId;
            var data', index' := data[lane.laneId := Entry(lane, now, now, 0)], Push(index, lane.tollId, lane.laneId);
            Step(data, index, Put(lane, now), data', index', ttl) && !LookupExact(data', index', before, now, ttl)
  {
    var before := data[lane.laneId].value.tollId;
    var data' := data[lane.laneId := Entry(lane, now, now, 0)];
    var index' := Push(index, lane.tollId, lane.laneId);
    assert PutDropping(data, index, lane, now, {}, data', index') by {
      assert data' - {} == data';
    }
    PutCovers(data, index, lane, now);
    assert IsForeign(data', index', before, now, ttl, lane.laneId);
    LookupExactIff(data', index', before, now, ttl);
  }
}
