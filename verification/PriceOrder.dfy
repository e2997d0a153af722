/** Price rows, the order the loader sorts them in, and a stable sort. */
module PriceOrder {
  import opened Options

  /** `detail` stands for the columns the cache only carries. */
  datatype PriceDto = PriceDto(tollA: Option<int>, tollB: Option<int>, vehicleType: Option<string>,
                               effectDatetime: Option<string>, stageId: Option<int>, detail: string)

  function UnwrapOr<T>(x: Option<T>, default: T): T {
    if x.Some? then x.value else default
  }

  /** Texts compare character by character, a prefix before what it begins. */
  predicate TextLe(a: string, b: string) {
    a == "" || (b != "" && if a[0] == b[0] then TextLe(a[1..], b[1..]) else a[0] < b[0])
  }

  /** Two texts differ for the first time at a position where the first has the smaller
      character. */
  ghost predicate LessAt(a: string, b: string, i: int) {
    0 <= i < |a| && i < |b| && a[..i] == b[..i] && a[i] < b[i]
  }

  /** Which is what the order of texts means, besides a prefix coming first. */
  lemma {:induction false} TextLeIff(a: string, b: string)
    ensures TextLe(a, b) <==> (|a| <= |b| && a == b[..|a|]) || exists i :: LessAt(a, b, i)
    decreases |a|
  {
    if a != "" && b != "" {
      if a[0] != b[0] {
        assert LessAt(a, b, 0) <==> a[0] < b[0];
        if i :| LessAt(a, b, i) {
          var head := a[..i];
          assert head == b[..i];
          assert i == 0;
        }
      } else {
        TextLeIff(a[1..], b[1..]);
        TailLess(a, b);
        assert |a| <= |b| ==> (a == b[..|a|] <==> a[1..] == b[1..][..|a| - 1]);
      }
    }
  }

  lemma TailLess(a: string, b: string)
    requires a != "" && b != "" && a[0] == b[0]
    ensures (exists i :: LessAt(a, b, i)) <==> exists i :: LessAt(a[1..], b[1..], i)
  {
    if i :| LessAt(a, b, i) {
      assert 0 < i && a[1..][..i - 1] == a[..i][1..] && b[1..][..i - 1] == b[..i][1..];
      assert LessAt(a[1..], b[1..], i - 1);
    }
    if i :| LessAt(a[1..], b[1..], i) {
      assert a[..i + 1] == [a[0]] + a[1..][..i] && b[..i + 1] == [b[0]] + b[1..][..i];
      assert LessAt(a, b, i + 1);
    }
  }

  lemma {:induction false} TextLeTotal(a: string, b: string)
    ensures TextLe(a, b) || TextLe(b, a)
    ensures TextLe(a, b) && TextLe(b, a) ==> a == b
    decreases |a|
  {
    if a != "" && b != "" {
      TextLeTotal(a[1..], b[1..]);
      assert a == [a[0]] + a[1..] && b == [b[0]] + b[1..];
    }
  }

  lemma {:induction false} TextLeTrans(a: string, b: string, c: string)
    requires TextLe(a, b) && TextLe(b, c)
    ensures TextLe(a, c)
    decreases |a|
  {
    if a != "" && a[0] == b[0] == c[0] {
      TextLeTrans(a[1..], b[1..], c[1..]);
    }
  }

  /** The comparison: tolls and vehicle type, with defaults for missing ones, then the
      date from which the price holds. */
  predicate Le(p: PriceDto, q: PriceDto) {
    var (pa, qa) := (UnwrapOr(p.tollA, 0), UnwrapOr(q.tollA, 0));
    var (pb, qb) := (UnwrapOr(p.tollB, 0), UnwrapOr(q.tollB, 0));
    var (pv, qv) := (UnwrapOr(p.vehicleType, ""), UnwrapOr(q.vehicleType, ""));
    if pa != qa then pa < qa
    else if pb != qb then pb < qb
    else if pv != qv then TextLe(pv, qv)
    else TextLe(Date(p), Date(q))
  }

  function Date(p: PriceDto): string {
    UnwrapOr(p.effectDatetime, "")
  }

  lemma LeTotal(p: PriceDto, q: PriceDto)
    ensures Le(p, q) || Le(q, p)
  {
    TextLeTotal(UnwrapOr(p.vehicleType, ""), UnwrapOr(q.vehicleType, ""));
    TextLeTotal(Date(p), Date(q));
  }

  lemma LeTrans(p: PriceDto, q: PriceDto, r: PriceDto)
    requires Le(p, q) && Le(q, r)
    ensures Le(p, r)
  {
    var (pv, qv, rv) := (UnwrapOr(p.vehicleType, ""), UnwrapOr(q.vehicleType, ""), UnwrapOr(r.vehicleType, ""));
    if TextLe(pv, qv) && TextLe(qv, rv) {
      TextLeTrans(pv, qv, rv);
      TextLeTotal(pv, qv);
    }
    if TextLe(Date(p), Date(q)) && TextLe(Date(q), Date(r)) {
      TextLeTrans(Date(p), Date(q), Date(r));
    }
  }

  predicate Sorted(s: seq<PriceDto>) {
    forall i, j :: 0 <= i < j < |s| ==> Le(s[i], s[j])
  }

  /** After every row that is not later. */
  function Insert(s: seq<PriceDto>, x: PriceDto): (r: seq<PriceDto>)
    ensures |r| == |s| + 1
    ensures multiset(r) == multiset(s) + multiset{x}
  {
    if s == [] then [x]
    else
      var n := |s| - 1;
      assert s == s[..n] + [s[n]];
      if Le(s[n], x) then s + [x] else Insert(s[..n], x) + [s[n]]
  }

  function StableSort(rows: seq<PriceDto>): (r: seq<PriceDto>)
    ensures multiset(r) == multiset(rows)
  {
    if rows == [] then []
    else
      var n := |rows| - 1;
      assert rows == rows[..n] + [rows[n]];
      Insert(StableSort(rows[..n]), rows[n])
  }

  lemma {:induction false} InsertKeepsSorted(s: seq<PriceDto>, x: PriceDto)
    requires Sorted(s)
    ensures Sorted(Insert(s, x))
    decreases |s|
  {
    if s != [] {
      var n := |s| - 1;
      if Le(s[n], x) {
        forall i | 0 <= i < |s| ensures Le(s[i], x) {
          if i < n {
            LeTrans(s[i], s[n], x);
          }
        }
      } else {
        LeTotal(s[n], x);
        InsertKeepsSorted(s[..n], x);
        var r := Insert(s[..n], x);
        forall i | 0 <= i < |r| ensures Le(r[i], s[n]) {
          assert r[i] in multiset(r);
          assert r[i] in multiset(s[..n]) || r[i] == x;
        }
      }
    }
  }

  lemma {:induction false} StableSortSorts(rows: seq<PriceDto>)
    ensures Sorted(StableSort(rows))
    decreases |rows|
  {
    if rows != [] {
      var n := |rows| - 1;
      StableSortSorts(rows[..n]);
      InsertKeepsSorted(StableSort(rows[..n]), rows[n]);
    }
  }
}
