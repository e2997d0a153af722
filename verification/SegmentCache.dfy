/** Transition stages by unordered pair of tolls: loaded from the database, written to
    KeyDB under printed keys, and rebuilt from those keys when the database is away. */
module SegmentCache {
  import opened Int64
  import opened Options
  import opened Collections
  import opened CacheKeys
  import opened Decimals

  type Segment = (int, int)

  type Segments = map<Segment, seq<int>>

  /** The pair with the smaller toll first. */
  function SegmentKey(a: int, b: int): (k: Segment)
    ensures k.0 <= k.1 && (k == (a, b) || k == (b, a))
  {
    if a <= b then (a, b) else (b, a)
  }

  /** A row of the table. */
  datatype Row = Row(tollA: int, tollB: int, transition: int)

  predicate Matches(r: Row, k: Segment) {
    SegmentKey(r.tollA, r.tollB) == k
  }

  /** The transitions of a segment in the order of the rows. */
  function IdsFor(rows: seq<Row>, k: Segment): seq<int> {
    if rows == [] then []
    else
      var n := |rows| - 1;
      IdsFor(rows[..n], k) + if Matches(rows[n], k) then [rows[n].transition] else []
  }

  /** Row by row: a row adds its transition to the segment of its two tolls, in whichever
      order it has them, and to no other. */
  lemma RowAddsTransition(rows: seq<Row>, r: Row, a: int, b: int)
    ensures IdsFor([], SegmentKey(a, b)) == []
    ensures IdsFor(rows + [r], SegmentKey(a, b)) ==
            if (r.tollA == a && r.tollB == b) || (r.tollA == b && r.tollB == a)
            then IdsFor(rows, SegmentKey(a, b)) + [r.transition]
            else IdsFor(rows, SegmentKey(a, b))
  {
    assert (rows + [r])[..|rows|] == rows;
  }

  ghost predicate Groups(rows: seq<Row>, m: Segments) {
    forall k :: (k in m <==> IdsFor(rows, k) != []) && (k in m ==> m[k] == IdsFor(rows, k))
  }

  /** Collects the rows into one list per segment. */
  method LoadSegments(rows: seq<Row>) returns (m: Segments)
    ensures Groups(rows, m)
    ensures forall k :: k in m ==> k.0 <= k.1
  {
    m := map[];
    for i := 0 to |rows|
      invariant Groups(rows[..i], m)
      invariant forall k :: k in m ==> k.0 <= k.1
    {
      var key := SegmentKey(rows[i].tollA, rows[i].tollB);
      assert rows[..i + 1][..i] == rows[..i];
      assert IdsFor(rows[..i], key) == if key in m then m[key] else [];
      m := m[key := (if key in m then m[key] else []) + [rows[i].transition]];
    }
    assert rows[..|rows|] == rows;
  }

  // ------------------------------------------------------------ keys

  function StageKey(k: Segment): string {
    Key(ClosedCycleTransitionStage, [Print(k.0), Print(k.1)])
  }

  /** What the fallback reads out of a key. */
  function DecodeKey(key: string): Option<Segment> {
    var parts := SplitN(key, 3);
    if |parts| < 3 then None
    else
      var lo, hi := Parse(parts[1]), Parse(parts[2]);
      if lo.None? || hi.None? then None else Some((lo.value, hi.value))
  }

  predicate IsSegment(k: Segment) {
    IsI64(k.0) && IsI64(k.1)
  }

  /** Decoding undoes encoding, for every pair of 64-bit tolls. */
  lemma DecodeStageKey(k: Segment)
    requires IsSegment(k)
    ensures DecodeKey(StageKey(k)) == Some(k)
  {
    PrintChars(k.0);
    var parts := [Print(k.0), Print(k.1)];
    assert ColonFree(parts[0]);
    SplitKey(ClosedCycleTransitionStage, parts);
    ParsePrint(k.0);
    ParsePrint(k.1);
  }

  /** A key is read if it has two numbers after its first and second colon, the second up to
      its end; any other key is skipped. */
  lemma KeyIsRead(a: string, x: string, y: string)
    requires ColonFree(a) && ColonFree(x)
    ensures DecodeKey(a + (":" + (x + (":" + y)))) ==
            if Parse(x).Some? && Parse(y).Some? then Some((Parse(x).value, Parse(y).value)) else None
    ensures DecodeKey(a) == None && DecodeKey(a + (":" + x)) == None
  {
    SplitHead(a, x + (":" + y), 3);
    SplitHead(x, y, 2);
    SplitHead(a, x, 3);
    assert SplitN(y, 1) == [y];
    FirstColonAt(a, []);
    FirstColonAt(x, []);
    assert a + [] == a && x + [] == x;
  }

  lemma StageKeyExample()
    ensures StageKey((-1, 20)) == "7_closed_cycle_transition_stage:-1:20"
  {
    assert Print(-1) == "-1" && Print(20) == "20";
    assert [Print(-1), Print(20)][1..] == [Print(20)] && [Print(20)][1..] == [];
  }

  // ------------------------------------------------------------ the fallback

  type Loaded = seq<(string, seq<int>)>

  /** Keeps the pairs whose key can be read. */
  function Decoded(decode: string -> Option<Segment>, pairs: Loaded): seq<(Segment, seq<int>)> {
    if pairs == [] then []
    else
      var n := |pairs| - 1;
      var front := Decoded(decode, pairs[..n]);
      match decode(pairs[n].0)
      case Some(k) => front + [(k, pairs[n].1)]
      case None => front
  }

  lemma DecodedNext(decode: string -> Option<Segment>, pairs: Loaded, i: nat)
    requires i < |pairs|
    ensures FromPairs(Decoded(decode, pairs[..i + 1])) ==
            match decode(pairs[i].0)
            case Some(k) => FromPairs(Decoded(decode, pairs[..i]))[k := pairs[i].1]
            case None => FromPairs(Decoded(decode, pairs[..i]))
  {
    assert pairs[..i + 1][..i] == pairs[..i];
    var front := Decoded(decode, pairs[..i]);
    forall k ensures FromPairs(front + [(k, pairs[i].1)]) == FromPairs(front)[k := pairs[i].1] {
      assert (front + [(k, pairs[i].1)])[..|front|] == front;
    }
  }

  method RebuildFromKeyDB(loaded: Loaded) returns (m: Segments)
    ensures m == FromPairs(Decoded(DecodeKey, loaded))
  {
    m := map[];
    for i := 0 to |loaded|
      invariant m == FromPairs(Decoded(DecodeKey, loaded[..i]))
    {
      DecodedNext(DecodeKey, loaded, i);
      var (key, ids) := loaded[i];
      var parts := SplitN(key, 3);
      if |parts| >= 3 {
        var lo, hi := Parse(parts[1]), Parse(parts[2]);
        if lo.Some? && hi.Some? {
          m := m[(lo.value, hi.value) := ids];
        }
      }
    }
    assert loaded[..|loaded|] == loaded;
  }

  /** `decode` undoes `encode`. */
  ghost predicate Undoes(decode: string -> Option<Segment>, encode: Segment -> string) {
    forall k :: IsSegment(k) ==> decode(encode(k)) == Some(k)
  }

  /** KeyDB's listing of the prefix: every key once, each made for a pair of `segs`. */
  ghost predicate IsListing(encode: Segment -> string, loaded: Loaded, segs: seq<Segment>) {
    && |segs| == |loaded|
    && (forall i :: 0 <= i < |loaded| ==> IsSegment(segs[i]) && loaded[i].0 == encode(segs[i]))
    && (forall i, j :: 0 <= i < j < |loaded| ==> loaded[i].0 != loaded[j].0)
  }

  lemma {:induction false} DecodedListing(decode: string -> Option<Segment>, encode: Segment -> string,
                                          loaded: Loaded, segs: seq<Segment>)
    requires Undoes(decode, encode) && IsListing(encode, loaded, segs)
    ensures |Decoded(decode, loaded)| == |loaded|
    ensures forall i :: 0 <= i < |loaded| ==> Decoded(decode, loaded)[i] == (segs[i], loaded[i].1)
    decreases |loaded|
  {
    if loaded != [] {
      var n := |loaded| - 1;
      DecodedListing(decode, encode, loaded[..n], segs[..n]);
      assert decode(encode(segs[n])) == Some(segs[n]);
    }
  }

  /** The listing holds the entries of `m`, as a reload leaves it. */
  ghost predicate Lists(encode: Segment -> string, loaded: Loaded, m: Segments) {
    forall k :: k in m ==> IsSegment(k) && (encode(k), m[k]) in loaded
  }

  lemma RebuiltKeys(decode: string -> Option<Segment>, encode: Segment -> string, loaded: Loaded, segs: seq<Segment>)
    requires Undoes(decode, encode) && IsListing(encode, loaded, segs)
    ensures forall k :: k in FromPairs(Decoded(decode, loaded)) <==> k in segs
  {
    var pairs := Decoded(decode, loaded);
    DecodedListing(decode, encode, loaded, segs);
    FromPairsIsLast(pairs);
    forall k | k in segs ensures k in FromPairs(pairs) {
      var i :| 0 <= i < |segs| && segs[i] == k;
      assert pairs[i].0 == k;
    }
  }

  /** Each segment is listed once. */
  lemma ListedOnce(encode: Segment -> string, loaded: Loaded, segs: seq<Segment>, i: nat, j: nat)
    requires IsListing(encode, loaded, segs) && i < |loaded| && j < |loaded| && segs[i] == segs[j]
    ensures i == j
  {
    assert loaded[i].0 == loaded[j].0;
  }

  lemma RebuiltValue(decode: string -> Option<Segment>, encode: Segment -> string,
                     loaded: Loaded, segs: seq<Segment>, i: nat)
    requires Undoes(decode, encode) && IsListing(encode, loaded, segs) && i < |loaded|
    ensures segs[i] in FromPairs(Decoded(decode, loaded))
    ensures FromPairs(Decoded(decode, loaded))[segs[i]] == loaded[i].1
  {
    var pairs := Decoded(decode, loaded);
    DecodedListing(decode, encode, loaded, segs);
    FromPairsIsLast(pairs);
    assert pairs[i].0 == segs[i];
    var j :| LastFor(pairs, j, segs[i]) && FromPairs(pairs)[segs[i]] == pairs[j].1;
    assert pairs[j].0 == segs[j];
    ListedOnce(encode, loaded, segs, i, j);
  }

  lemma RebuiltValues(decode: string -> Option<Segment>, encode: Segment -> string,
                      loaded: Loaded, segs: seq<Segment>, m: Segments)
    requires Undoes(decode, encode) && IsListing(encode, loaded, segs) && Lists(encode, loaded, m)
    ensures var r := FromPairs(Decoded(decode, loaded));
            forall k :: k in m ==> k in r && r[k] == m[k]
  {
    var r := FromPairs(Decoded(decode, loaded));
    forall k | k in m ensures k in r && r[k] == m[k] {
      var i :| 0 <= i < |loaded| && loaded[i] == (encode(k), m[k]);
      assert decode(encode(k)) == Some(k) && decode(encode(segs[i])) == Some(segs[i]);
      RebuiltValue(decode, encode, loaded, segs, i);
    }
  }

  lemma RebuiltExactIff(decode: string -> Option<Segment>, encode: Segment -> string,
                        loaded: Loaded, segs: seq<Segment>, m: Segments)
    requires Undoes(decode, encode) && IsListing(encode, loaded, segs) && Lists(encode, loaded, m)
    ensures FromPairs(Decoded(decode, loaded)) == m <==> forall k :: k in segs ==> k in m
  {
    RebuiltKeys(decode, encode, loaded, segs);
    RebuiltValues(decode, encode, loaded, segs, m);
  }

  lemma StageKeysDecode()
    ensures Undoes(DecodeKey, StageKey)
  {
    forall k | IsSegment(k) ensures DecodeKey(StageKey(k)) == Some(k) {
      DecodeStageKey(k);
    }
  }

  /** The fallback rebuilds the segments that the last load wrote if and only if no other
      key was left over under the prefix. */
  lemma FallbackExactIff(loaded: Loaded, segs: seq<Segment>, m: Segments)
    requires IsListing(StageKey, loaded, segs) && Lists(StageKey, loaded, m)
    ensures FromPairs(Decoded(DecodeKey, loaded)) == m <==> forall k :: k in segs ==> k in m
  {
    StageKeysDecode();
    RebuiltExactIff(DecodeKey, StageKey, loaded, segs, m);
  }

  // ------------------------------------------------------------ the segments in memory

  class SegmentMemory {
    var segments: Segments
    var cycleByStage: map<int, int>

    constructor ()
      ensures segments == map[] && cycleByStage == map[]
    {
      segments, cycleByStage := map[], map[];
    }

    /** Every entry answers for its segment as the table does. */
    ghost predicate Faithful(rows: seq<Row>)
      reads this
    {
      forall k :: k in segments ==> IdsFor(rows, k) != [] && segments[k] == IdsFor(rows, k)
    }

    method ReplaceAll(m: Segments, cycles: map<int, int>)
      modifies this
      ensures segments == m && cycleByStage == cycles
    {
      segments, cycleByStage := m, cycles;
    }

    /** The fallback; an empty listing leaves memory as it is. */
    method LoadFromKeyDB(loaded: Loaded)
      modifies this`segments
      ensures segments == if loaded == [] then old(segments) else FromPairs(Decoded(DecodeKey, loaded))
    {
      if |loaded| == 0 {
        return;
      }
      segments := RebuildFromKeyDB(loaded);
    }

    function Get(a: int, b: int): (ids: Option<seq<int>>)
      reads this
      ensures a <= b ==> ids == if (a, b) in segments then Some(segments[(a, b)]) else None
      ensures b <= a ==> ids == if (b, a) in segments then Some(segments[(b, a)]) else None
    {
      var k := SegmentKey(a, b);
      if k in segments then Some(segments[k]) else None
    }

    /** The first transition of the segment, as its stage for pricing. */
    function StageId(a: int, b: int): (stage: Option<int>)
      reads this
      ensures stage.Some? <==> Get(a, b).Some? && 0 < |Get(a, b).value|
      ensures stage.Some? ==> stage.value == Get(a, b).value[0]
    {
      match Get(a, b)
      case Some(ids) => if ids == [] then None else Some(ids[0])
      case None => None
    }

    function CycleId(a: int, b: int): (cycle: Option<int>)
      reads this
      ensures cycle.Some? <==> StageId(a, b).Some? && StageId(a, b).value in cycleByStage
      ensures cycle.Some? ==> cycle.value == cycleByStage[StageId(a, b).value]
    {
      match StageId(a, b)
      case Some(s) => if s in cycleByStage then Some(cycleByStage[s]) else None
      case None => None
    }

    /** Every lookup is symmetric in its two tolls. */
    lemma LookupsSymmetric(a: int, b: int)
      ensures Get(a, b) == Get(b, a) && StageId(a, b) == StageId(b, a) && CycleId(a, b) == CycleId(b, a)
    {
    }

    /** Memory first, in both directions, then the table: the answer is the table's for
        either direction, and memory stays faithful.  None only when memory does not have
        the segment and the table neither, or its query fails. */
    method GetSegmentsForLeg(rows: seq<Row>, queryOk: bool, a: int, b: int) returns (ids: Option<seq<int>>)
      requires Faithful(rows)
      modifies this`segments
      ensures Faithful(rows)
      ensures ids.Some? ==> ids.value == IdsFor(rows, SegmentKey(a, b)) != []
      ensures ids.None? ==> Get(a, b).None? && (queryOk ==> IdsFor(rows, SegmentKey(a, b)) == [])
      ensures old(Get(a, b)).Some? ==> ids == old(Get(a, b))
      ensures segments == if ids.Some? then old(segments)[SegmentKey(a, b) := ids.value] else old(segments)
    {
      var k := SegmentKey(a, b);
      var found := Get(a, b);
      if found.Some? {
        assert segments == segments[k := segments[k]];
        return found;
      }
      found := Get(b, a);
      if found.Some? {
        return found;
      }
      if !queryOk {
        return None;
      }
      var seg := LoadSegment(rows, a, b);
      if seg == [] {
        return None;
      }
      segments := segments[k := seg];
      return Some(seg);
    }
  }

  /** The query for one segment asks for both directions. */
  method LoadSegment(rows: seq<Row>, a: int, b: int) returns (ids: seq<int>)
    ensures ids == IdsFor(rows, SegmentKey(a, b))
  {
    ids := [];
    for i := 0 to |rows|
      invariant ids == IdsFor(rows[..i], SegmentKey(a, b))
    {
      assert rows[..i + 1][..i] == rows[..i];
      var r := rows[i];
      if (r.tollA == a && r.tollB == b) || (r.tollA == b && r.tollB == a) {
        ids := ids + [r.transition];
      }
    }
    assert rows[..|rows|] == rows;
  }
}
