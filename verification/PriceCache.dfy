/** Loading the price list: of all rows with one cache key the last in sorted order stays,
    in memory, in process and in KeyDB. */
module PriceCache {
  import opened Int64
  import opened Options
  import opened Collections
  import opened CacheKeys
  import opened CacheReloadLaws
  import opened Decimals
  import opened PriceOrder

  function Show(x: Option<int>): string {
    if x.Some? then Print(x.value) else "None"
  }

  function CacheKey(p: PriceDto): string {
    Key(CachePrefix.Price, [Show(p.tollA), Show(p.tollB), UnwrapOr(p.vehicleType, "None")])
  }

  predicate IsRow(p: PriceDto) {
    (p.tollA.Some? ==> IsI64(p.tollA.value)) && (p.tollB.Some? ==> IsI64(p.tollB.value))
  }

  lemma ShowInjective(x: Option<int>, y: Option<int>)
    requires (x.Some? ==> IsI64(x.value)) && (y.Some? ==> IsI64(y.value))
    ensures ColonFree(Show(x)) && ColonFree(Show(y))
    ensures Show(x) == Show(y) <==> x == y
  {
    var none := "None";
    assert none[0] == 'N' && none[0] in none;
    if x.Some? {
      PrintChars(x.value);
      if y.Some? {
        PrintChars(y.value);
        PrintInjective(x.value, y.value);
      }
    } else if y.Some? {
      PrintChars(y.value);
    }
  }

  /** The cache key tells rows apart by both tolls and the vehicle type, except that a
      missing vehicle type is spelled like one named "None". */
  lemma CacheKeySameIff(p: PriceDto, q: PriceDto)
    requires IsRow(p) && IsRow(q)
    ensures CacheKey(p) == CacheKey(q) <==>
            p.tollA == q.tollA && p.tollB == q.tollB
            && UnwrapOr(p.vehicleType, "None") == UnwrapOr(q.vehicleType, "None")
  {
    ShowInjective(p.tollA, q.tollA);
    ShowInjective(p.tollB, q.tollB);
    var a := [Show(p.tollA), Show(p.tollB), UnwrapOr(p.vehicleType, "None")];
    var b := [Show(q.tollA), Show(q.tollB), UnwrapOr(q.vehicleType, "None")];
    KeyInjective(CachePrefix.Price, a, CachePrefix.Price, b);
  }

  // ------------------------------------------------------------ which row stays

  function Keyed(rows: seq<PriceDto>, key: PriceDto -> string): seq<(string, PriceDto)> {
    if rows == [] then []
    else
      var n := |rows| - 1;
      Keyed(rows[..n], key) + [(key(rows[n]), rows[n])]
  }

  /** What a load puts in every cache. */
  function Loaded(rows: seq<PriceDto>): map<string, PriceDto> {
    FromPairs(Keyed(StableSort(rows), CacheKey))
  }

  /** The last row under a key. */
  function LastOf(s: seq<PriceDto>, key: PriceDto -> string, k: string): Option<PriceDto> {
    if s == [] then None
    else
      var n := |s| - 1;
      if key(s[n]) == k then Some(s[n]) else LastOf(s[..n], key, k)
  }

  /** Row by row in the order of the query, a row takes over unless the one before it is
      later. */
  function Winner(rows: seq<PriceDto>, key: PriceDto -> string, k: string): Option<PriceDto> {
    if rows == [] then None
    else
      var n := |rows| - 1;
      var before := Winner(rows[..n], key, k);
      if key(rows[n]) == k && (before.None? || Le(before.value, rows[n])) then Some(rows[n]) else before
  }

  lemma {:induction false} LastOfIn(s: seq<PriceDto>, key: PriceDto -> string, k: string)
    ensures LastOf(s, key, k).Some? ==> LastOf(s, key, k).value in s
    decreases |s|
  {
    if s != [] {
      LastOfIn(s[..|s| - 1], key, k);
    }
  }

  lemma {:induction false} LastOfInsert(s: seq<PriceDto>, x: PriceDto, key: PriceDto -> string, k: string)
    requires Sorted(s)
    ensures var last := LastOf(s, key, k);
            LastOf(Insert(s, x), key, k) ==
            if key(x) == k && (last.None? || Le(last.value, x)) then Some(x) else last
    decreases |s|
  {
    if s == [] {
      assert [x][..0] == [];
    } else {
      var n := |s| - 1;
      if Le(s[n], x) {
        assert (s + [x])[..|s|] == s;
        LastOfIn(s, key, k);
        var last := LastOf(s, key, k);
        if last.Some? {
          var i :| 0 <= i < |s| && s[i] == last.value;
          if i < n {
            LeTrans(s[i], s[n], x);
          }
        }
      } else {
        LastOfInsert(s[..n], x, key, k);
        var r := Insert(s[..n], x);
        assert (r + [s[n]])[..|r|] == r;
      }
    }
  }

  lemma {:induction false} SortedLastIsWinner(rows: seq<PriceDto>, key: PriceDto -> string, k: string)
    ensures LastOf(StableSort(rows), key, k) == Winner(rows, key, k)
    decreases |rows|
  {
    if rows != [] {
      var n := |rows| - 1;
      SortedLastIsWinner(rows[..n], key, k);
      StableSortSorts(rows[..n]);
      LastOfInsert(StableSort(rows[..n]), rows[n], key, k);
    }
  }

  lemma {:induction false} CollectedIsLast(s: seq<PriceDto>, key: PriceDto -> string, k: string)
    ensures var m, last := FromPairs(Keyed(s, key)), LastOf(s, key, k);
            (k in m <==> last.Some?) && (k in m ==> m[k] == last.value)
    decreases |s|
  {
    if s != [] {
      var n := |s| - 1;
      CollectedIsLast(s[..n], key, k);
      var front := Keyed(s[..n], key);
      assert (front + [(key(s[n]), s[n])])[..|front|] == front;
    }
  }

  /** Every key with a row is loaded, with the row that won. */
  lemma LoadedIsWinner(rows: seq<PriceDto>, k: string)
    ensures k in Loaded(rows) <==> Winner(rows, CacheKey, k).Some?
    ensures k in Loaded(rows) ==> Loaded(rows)[k] == Winner(rows, CacheKey, k).value
  {
    CollectedIsLast(StableSort(rows), CacheKey, k);
    SortedLastIsWinner(rows, CacheKey, k);
  }

  /** The winner is a row of its key that is at least as late in the order as any other. */
  lemma {:induction false} WinnerIsGreatest(rows: seq<PriceDto>, key: PriceDto -> string, k: string)
    ensures var w := Winner(rows, key, k);
            && (w.Some? ==> w.value in rows && key(w.value) == k)
            && (forall r :: r in rows && key(r) == k ==> w.Some? && Le(r, w.value))
    decreases |rows|
  {
    if rows != [] {
      var n := |rows| - 1;
      var before, w := Winner(rows[..n], key, k), Winner(rows, key, k);
      WinnerIsGreatest(rows[..n], key, k);
      LeTotal(rows[n], rows[n]);
      if before.Some? {
        LeTotal(before.value, rows[n]);
      }
      forall r | r in rows && key(r) == k ensures w.Some? && Le(r, w.value) {
        if r in rows[..n] && w == Some(rows[n]) {
          LeTrans(r, before.value, rows[n]);
        }
      }
    }
  }

  // ------------------------------------------------------------ whether it is the newest

  predicate Untyped(p: PriceDto) {
    p.vehicleType.None?
  }

  ghost predicate Newest(rows: seq<PriceDto>, k: string, w: PriceDto) {
    forall r :: r in rows && CacheKey(r) == k ==> TextLe(Date(r), Date(w))
  }

  /** No row without vehicle type is later than every row of the same key that has one. */
  ghost predicate NoLateUntyped(rows: seq<PriceDto>, k: string) {
    forall r :: r in rows && CacheKey(r) == k && Untyped(r) ==> Outdone(rows, k, r)
  }

  /** Among the rows of the key that have a vehicle type, if any, one is not older. */
  ghost predicate Outdone(rows: seq<PriceDto>, k: string, r: PriceDto) {
    (exists s :: s in rows && CacheKey(s) == k && !Untyped(s)) ==>
      exists s :: s in rows && CacheKey(s) == k && !Untyped(s) && TextLe(Date(r), Date(s))
  }

  /** Under one cache key the order is: untyped rows first, then by date. */
  lemma OrderWithinKey(p: PriceDto, q: PriceDto)
    requires IsRow(p) && IsRow(q) && CacheKey(p) == CacheKey(q)
    ensures Le(p, q) <==> if Untyped(p) == Untyped(q) then TextLe(Date(p), Date(q)) else Untyped(p)
  {
    CacheKeySameIff(p, q);
  }

  lemma WinnerNewest(rows: seq<PriceDto>, k: string, w: PriceDto)
    requires forall r :: r in rows ==> IsRow(r)
    requires Winner(rows, CacheKey, k) == Some(w) && NoLateUntyped(rows, k)
    ensures Newest(rows, k, w)
  {
    WinnerIsGreatest(rows, CacheKey, k);
    forall r | r in rows && CacheKey(r) == k ensures TextLe(Date(r), Date(w)) {
      OrderWithinKey(r, w);
      if Untyped(r) && !Untyped(w) {
        assert Outdone(rows, k, r);
        var s :| s in rows && CacheKey(s) == k && !Untyped(s) && TextLe(Date(r), Date(s));
        OrderWithinKey(s, w);
        TextLeTrans(Date(r), Date(s), Date(w));
      }
    }
  }

  lemma NewestOutdoes(rows: seq<PriceDto>, k: string, w: PriceDto)
    requires forall r :: r in rows ==> IsRow(r)
    requires Winner(rows, CacheKey, k) == Some(w) && Newest(rows, k, w)
    ensures NoLateUntyped(rows, k)
  {
    WinnerIsGreatest(rows, CacheKey, k);
    forall r | r in rows && CacheKey(r) == k && Untyped(r) ensures Outdone(rows, k, r) {
      forall s | s in rows && CacheKey(s) == k && !Untyped(s) ensures !Untyped(w) {
        OrderWithinKey(s, w);
      }
    }
  }

  /** The row that stays has the greatest date among all rows of its key if and only if no
      row without vehicle type is later than those whose vehicle type is "None". */
  lemma NewestIff(rows: seq<PriceDto>, k: string)
    requires (forall r :: r in rows ==> IsRow(r)) && k in Loaded(rows)
    ensures Newest(rows, k, Loaded(rows)[k]) <==> NoLateUntyped(rows, k)
  {
    LoadedIsWinner(rows, k);
    if NoLateUntyped(rows, k) {
      WinnerNewest(rows, k, Loaded(rows)[k]);
    }
    if Newest(rows, k, Loaded(rows)[k]) {
      NewestOutdoes(rows, k, Loaded(rows)[k]);
    }
  }

  /** So it is for every vehicle type but that one name. */
  lemma NamedTypesKeepNewest(rows: seq<PriceDto>, p: PriceDto)
    requires (forall r :: r in rows ==> IsRow(r)) && p in rows
    requires p.vehicleType.Some? && p.vehicleType.value != "None"
    ensures CacheKey(p) in Loaded(rows) && Newest(rows, CacheKey(p), Loaded(rows)[CacheKey(p)])
  {
    var k := CacheKey(p);
    LoadedIsWinner(rows, k);
    WinnerIsGreatest(rows, CacheKey, k);
    forall r | r in rows && CacheKey(r) == k && Untyped(r) ensures Outdone(rows, k, r) {
      CacheKeySameIff(r, p);
    }
    NewestIff(rows, k);
  }

  /** Otherwise not: a later row without vehicle type loses to one named "None". */
  lemma UntypedRowLoses(early: PriceDto, late: PriceDto)
    requires IsRow(late) && Untyped(late) && !TextLe(Date(late), Date(early))
    requires early == late.(vehicleType := Some("None"), effectDatetime := early.effectDatetime)
    ensures var k, rows := CacheKey(late), [early, late];
            k in Loaded(rows) && Loaded(rows)[k] == early && !Newest(rows, k, early)
  {
    var k, rows := CacheKey(late), [early, late];
    CacheKeySameIff(early, late);
    LoadedIsWinner(rows, k);
    WinnerIsGreatest(rows, CacheKey, k);
    OrderWithinKey(early, late);
    OrderWithinKey(late, early);
    assert early in rows && late in rows;
  }

  // ------------------------------------------------------------ the same row everywhere

  type Json = PriceDto -> string

  function Serialized(pairs: seq<(string, PriceDto)>, json: Json): seq<(string, string)> {
    if pairs == [] then []
    else
      var n := |pairs| - 1;
      Serialized(pairs[..n], json) + [(pairs[n].0, json(pairs[n].1))]
  }

  lemma {:induction false} SerializedValues(pairs: seq<(string, PriceDto)>, json: Json)
    ensures FromPairs(Serialized(pairs, json)).Keys == FromPairs(pairs).Keys
    ensures forall k :: k in FromPairs(pairs) ==> FromPairs(Serialized(pairs, json))[k] == json(FromPairs(pairs)[k])
    decreases |pairs|
  {
    if pairs != [] {
      var n := |pairs| - 1;
      SerializedValues(pairs[..n], json);
      var front := Serialized(pairs[..n], json);
      assert (front + [(pairs[n].0, json(pairs[n].1))])[..|front|] == front;
    }
  }

  /** What the loader hands to the two-level cache. */
  function CacheData(rows: seq<PriceDto>, json: Json): seq<(string, string)> {
    Serialized(Keyed(StableSort(rows), CacheKey), json)
  }

  /** After a load, memory, the in-process cache and KeyDB hold the same row for every key. */
  lemma SameRowEverywhere(rows: seq<PriceDto>, json: Json, s: Stores, s': Stores, k: string)
    requires Ok(s) && Reloaded(s, AsStr(CachePrefix.Price), CacheData(rows, json), s')
    ensures k in Loaded(rows) ==>
              k in s'.moka && k in s'.keydb && s'.moka[k] == s'.keydb[k] == json(Loaded(rows)[k])
  {
    ReloadShrinksStale(s, AsStr(CachePrefix.Price), CacheData(rows, json), s');
    SerializedValues(Keyed(StableSort(rows), CacheKey), json);
  }

  // ------------------------------------------------------------ prices in memory

  type StageKey = (int, string)

  function StageKeyOf(p: PriceDto): StageKey {
    (UnwrapOr(p.stageId, 0), UnwrapOr(p.vehicleType, "None"))
  }

  /** The key under which a lookup asks. */
  function PriceKey(a: int, b: int, vehicleType: string): string {
    Key(CachePrefix.Price, [Print(a), Print(b), if vehicleType == "" then "None" else vehicleType])
  }

  /** A lookup asks for the key of exactly those rows that have both its tolls and its vehicle
      type, "None" being asked for when there is none and standing for a missing one. */
  lemma PriceKeyIsCacheKey(a: int, b: int, v: string, p: PriceDto)
    requires IsI64(a) && IsI64(b) && IsRow(p)
    ensures PriceKey(a, b, v) == CacheKey(p) <==>
            && p.tollA == Some(a) && p.tollB == Some(b)
            && (match p.vehicleType case Some(w) => w case None => "None") == (if v == "" then "None" else v)
  {
    var q := PriceDto(Some(a), Some(b), Some(if v == "" then "None" else v), None, None, "");
    assert PriceKey(a, b, v) == CacheKey(q);
    CacheKeySameIff(p, q);
  }

  /** The row has these tolls and this vehicle type. */
  predicate IsFor(p: PriceDto, a: int, b: int, v: string) {
    p.tollA == Some(a) && p.tollB == Some(b) && p.vehicleType == Some(v)
  }

  /** The date of `p`, if it has one, is not after that of `q`. */
  predicate NotLater(p: PriceDto, q: PriceDto) {
    match p.effectDatetime
    case None => true
    case Some(d) => match q.effectDatetime case Some(e) => TextLe(d, e) case None => d == ""
  }

  /** From the table to the lookup: for a vehicle type by name, what a load puts under the key
      of a lookup is a row for its tolls and vehicle type with the latest date, if there is
      any such row. */
  lemma LoadedPriceIsFound(rows: seq<PriceDto>, a: int, b: int, v: string)
    requires (forall r :: r in rows ==> IsRow(r)) && IsI64(a) && IsI64(b) && v != "" && v != "None"
    ensures var k := PriceKey(a, b, v);
            && (k in Loaded(rows) <==> exists r :: r in rows && IsFor(r, a, b, v))
            && (k in Loaded(rows) ==>
                  var w := Loaded(rows)[k];
                  w in rows && IsFor(w, a, b, v) && forall r :: r in rows && IsFor(r, a, b, v) ==> NotLater(r, w))
  {
    var k := PriceKey(a, b, v);
    LoadedIsWinner(rows, k);
    WinnerIsGreatest(rows, CacheKey, k);
    forall r | r in rows ensures CacheKey(r) == k <==> IsFor(r, a, b, v) {
      PriceKeyIsCacheKey(a, b, v, r);
    }
    if k in Loaded(rows) {
      var w := Loaded(rows)[k];
      forall r | r in rows && IsFor(r, a, b, v) ensures NotLater(r, w) {
        NamedTypesKeepNewest(rows, r);
        assert TextLe(Date(r), Date(w));
      }
    }
  }

  lemma PriceKeySameIff(a: int, b: int, v: string, c: int, d: int, w: string)
    requires IsI64(a) && IsI64(b) && IsI64(c) && IsI64(d)
    requires PriceKey(a, b, v) == PriceKey(c, d, w)
    ensures a == c && b == d
  {
    var p := PriceDto(Some(a), Some(b), Some(if v == "" then "None" else v), None, None, "");
    var q := PriceDto(Some(c), Some(d), Some(if w == "" then "None" else w), None, None, "");
    CacheKeySameIff(p, q);
  }

  function Swapped(p: PriceDto): PriceDto {
    p.(tollA := p.tollB, tollB := p.tollA)
  }

  predicate Runs(p: PriceDto, a: int, b: int) {
    p.tollA == Some(a) && p.tollB == Some(b)
  }

  /** An answer of the price query. */
  datatype Answer = Row(price: PriceDto) | NoRow | Failed

  /** Every entry lies under the key of its own direction. */
  ghost predicate Directed(prices: map<string, PriceDto>) {
    forall a, b, v :: IsI64(a) && IsI64(b) && PriceKey(a, b, v) in prices ==> Runs(prices[PriceKey(a, b, v)], a, b)
  }

  lemma LoadedDirected(rows: seq<PriceDto>)
    requires forall r :: r in rows ==> IsRow(r)
    ensures Directed(Loaded(rows))
  {
    forall a, b, v | IsI64(a) && IsI64(b) && PriceKey(a, b, v) in Loaded(rows)
      ensures Runs(Loaded(rows)[PriceKey(a, b, v)], a, b)
    {
      var k := PriceKey(a, b, v);
      LoadedIsWinner(rows, k);
      WinnerIsGreatest(rows, CacheKey, k);
      var p := PriceDto(Some(a), Some(b), Some(if v == "" then "None" else v), None, None, "");
      CacheKeySameIff(Loaded(rows)[k], p);
    }
  }

  lemma DirectedPut(prices: map<string, PriceDto>, a: int, b: int, v: string, p: PriceDto)
    requires Directed(prices) && IsI64(a) && IsI64(b) && Runs(p, a, b)
    ensures Directed(prices[PriceKey(a, b, v) := p])
  {
    var prices' := prices[PriceKey(a, b, v) := p];
    forall c, d, w | IsI64(c) && IsI64(d) && PriceKey(c, d, w) in prices'
      ensures Runs(prices'[PriceKey(c, d, w)], c, d)
    {
      if PriceKey(c, d, w) == PriceKey(a, b, v) {
        PriceKeySameIff(c, d, w, a, b, v);
      }
    }
  }

  ghost predicate StagesOf(stages: map<StageKey, PriceDto>, prices: map<string, PriceDto>, left: set<string>) {
    && (forall k :: k in prices && k !in left ==> StageKeyOf(prices[k]) in stages)
    && (forall t :: t in stages ==> StageKeyOf(stages[t]) == t && stages[t] in prices.Values)
  }

  /** The stage, or 0, and the vehicle type, or "None". */
  predicate IsStage(t: StageKey, p: PriceDto) {
    && t.0 == (match p.stageId case Some(s) => s case None => 0)
    && t.1 == (match p.vehicleType case Some(v) => v case None => "None")
  }

  /** Every price has its stage in the index, and every entry of it is a price of its stage. */
  lemma StagesAreOfPrices(stages: map<StageKey, PriceDto>, prices: map<string, PriceDto>)
    requires StagesOf(stages, prices, {})
    ensures forall k :: k in prices ==> exists t :: t in stages && IsStage(t, prices[k])
    ensures forall t :: t in stages ==> IsStage(t, stages[t]) && stages[t] in prices.Values
  {
    forall k | k in prices ensures exists t :: t in stages && IsStage(t, prices[k]) {
      StageIsKey(StageKeyOf(prices[k]), prices[k]);
    }
    forall t | t in stages ensures IsStage(t, stages[t]) {
      StageIsKey(t, stages[t]);
    }
  }

  lemma StageIsKey(t: StageKey, p: PriceDto)
    ensures IsStage(t, p) <==> t == StageKeyOf(p)
  {
  }

  class PriceMemory {
    var prices: map<string, PriceDto>
    var stages: map<StageKey, PriceDto>

    constructor ()
      ensures prices == map[] && stages == map[]
    {
      prices, stages := map[], map[];
    }

    /** The stage index gets one of the prices of every stage and vehicle type. */
    method ReplaceAllPrices(data: seq<(string, PriceDto)>)
      modifies this
      ensures prices == FromPairs(data) && StagesOf(stages, prices, {})
    {
      var m := FromPairs(data);
      var stageMap: map<StageKey, PriceDto> := map[];
      var left := m.Keys;
      while left != {}
        invariant left <= m.Keys && StagesOf(stageMap, m, left)
        decreases left
      {
        var k :| k in left;
        assert m[k] in m.Values;
        stageMap := stageMap[StageKeyOf(m[k]) := m[k]];
        left := left - {k};
      }
      prices, stages := m, stageMap;
    }

    /** Sorts the rows, keys them and collects them. */
    method LoadFromDb(rows: seq<PriceDto>)
      requires forall r :: r in rows ==> IsRow(r)
      modifies this
      ensures prices == Loaded(rows) && Directed(prices) && StagesOf(stages, prices, {})
    {
      ReplaceAllPrices(Keyed(StableSort(rows), CacheKey));
      LoadedDirected(rows);
    }

    /** Memory in both directions, then the table in both: whatever answers, the price
        runs in the direction asked for, and a price from the table is remembered so. */
    method GetPrice(a: int, b: int, vehicleType: string, there: Answer, back: Answer) returns (r: Option<PriceDto>)
      requires Directed(prices) && IsI64(a) && IsI64(b)
      requires (there.Row? ==> Runs(there.price, a, b)) && (back.Row? ==> Runs(back.price, b, a))
      modifies this`prices
      ensures Directed(prices) && (r.Some? ==> Runs(r.value, a, b))
      ensures var key, reverse := PriceKey(a, b, vehicleType), PriceKey(b, a, vehicleType);
              r == if key in old(prices) then Some(old(prices)[key])
                   else if reverse in old(prices) then
                     var p := old(prices)[reverse]; Some(p.(tollA := p.tollB, tollB := p.tollA))
                   else if there.Row? then Some(there.price)
                   else if there.NoRow? && back.Row? then
                     var p := back.price; Some(p.(tollA := p.tollB, tollB := p.tollA))
                   else None
      ensures var key, reverse := PriceKey(a, b, vehicleType), PriceKey(b, a, vehicleType);
              prices == if key in old(prices) || reverse in old(prices) || r.None? then old(prices)
                        else old(prices)[key := r.value]
    {
      var key, reverse := PriceKey(a, b, vehicleType), PriceKey(b, a, vehicleType);
      if key in prices {
        return Some(prices[key]);
      }
      if reverse in prices {
        return Some(Swapped(prices[reverse]));
      }
      match there
      case Row(price) =>
        DirectedPut(prices, a, b, vehicleType, price);
        prices := prices[key := price];
        return Some(price);
      case Failed => return None;
      case NoRow =>
        if back.Row? {
          var swapped := Swapped(back.price);
          DirectedPut(prices, a, b, vehicleType, swapped);
          prices := prices[key := swapped];
          return Some(swapped);
        }
        return None;
    }
  }
}
