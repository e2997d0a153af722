/** What the caches keep of a value, and the order in which they evict: least recently used
    first. */
module Lru {
  import opened Collections

  datatype Entry<V> = Entry(value: V, createdAt: int, lastAccess: int, accessCount: nat)

  predicate Expired<V>(e: Entry<V>, now: int, ttl: int) {
    now - e.createdAt >= ttl
  }

  function Used<V>(e: Entry<V>, now: int): Entry<V> {
    e.(lastAccess := now, accessCount := e.accessCount + 1)
  }

  function Ages<V>(data: map<int, Entry<V>>): map<int, int> {
    map id | id in data :: data[id].lastAccess
  }

  lemma AgesOf<V>(data: map<int, Entry<V>>)
    ensures |Ages(data)| == |data|
  {
    assert Ages(data).Keys == data.Keys && |Ages(data).Keys| == |Ages(data)| && |data.Keys| == |data|;
  }

  type Aged = (int, int)                   // key, last access

  ghost predicate ByAccess(s: seq<Aged>) {
    forall i, j :: 0 <= i < j < |s| ==> s[i].1 <= s[j].1
  }

  ghost predicate KeysDistinct(s: seq<Aged>) {
    forall i, j :: 0 <= i < j < |s| ==> s[i].0 != s[j].0
  }

  function InsertByAccess(e: Aged, s: seq<Aged>): (r: seq<Aged>)
    ensures |r| == |s| + 1 && multiset(r) == multiset(s) + multiset{e}
  {
    if s == [] || e.1 <= s[0].1 then [e] + s
    else
      assert s == [s[0]] + s[1..];
      [s[0]] + InsertByAccess(e, s[1..])
  }

  function SortByAccess(s: seq<Aged>): (r: seq<Aged>)
    ensures |r| == |s| && multiset(r) == multiset(s)
  {
    if s == [] then []
    else
      assert s == [s[0]] + s[1..];
      InsertByAccess(s[0], SortByAccess(s[1..]))
  }

  lemma {:induction false} InsertKeepsOrder(e: Aged, s: seq<Aged>)
    requires ByAccess(s)
    ensures ByAccess(InsertByAccess(e, s))
    decreases |s|
  {
    if s != [] && e.1 > s[0].1 {
      InsertKeepsOrder(e, s[1..]);
      var t := InsertByAccess(e, s[1..]);
      forall i | 0 <= i < |t| ensures s[0].1 <= t[i].1 {
        assert t[i] in multiset(t);
        assert t[i] == e || t[i] in multiset(s[1..]);
      }
    }
  }

  lemma {:induction false} SortIsByAccess(s: seq<Aged>)
    ensures ByAccess(SortByAccess(s))
    decreases |s|
  {
    if s != [] {
      SortIsByAccess(s[1..]);
      InsertKeepsOrder(s[0], SortByAccess(s[1..]));
    }
  }

  /** Reordering keeps keys distinct. */
  lemma PermutationKeepsKeys(s: seq<Aged>, r: seq<Aged>)
    requires multiset(r) == multiset(s) && KeysDistinct(s)
    ensures KeysDistinct(r) && forall x :: x in r <==> x in s
  {
    forall x ensures x in r <==> x in s {
      assert x in multiset(r) <==> x in multiset(s);
    }
    forall i, j | 0 <= i < j < |r| ensures r[i].0 != r[j].0 {
      assert r[i] in r && r[j] in r;
      var x := r[i];
      assert x in s && r[j] in s;
      var a :| 0 <= a < |s| && s[a] == x;
      OnceInMultiset(s, a);
      if x == r[j] {
        TwiceInMultiset(r, i, j);
      }
    }
  }

  lemma TwiceInMultiset(r: seq<Aged>, i: nat, j: nat)
    requires i < j < |r| && r[i] == r[j]
    ensures 2 <= multiset(r)[r[i]]
  {
    assert r == r[..j] + [r[j]] + r[j + 1..];
    assert r[..j][i] == r[i];
    assert r[i] in multiset(r[..j]);
  }

  lemma OnceInMultiset(s: seq<Aged>, a: nat)
    requires KeysDistinct(s) && a < |s|
    ensures multiset(s)[s[a]] == 1
  {
    assert s == s[..a] + [s[a]] + s[a + 1..];
    assert s[a] !in s[..a] && s[a] !in s[a + 1..];
    assert s[a] !in multiset(s[..a]) && s[a] !in multiset(s[a + 1..]);
  }

  function KeysOf(s: seq<Aged>): set<int> {
    set e | e in s :: e.0
  }

  lemma KeysOfNext(s: seq<Aged>, i: nat)
    requires i < |s| && KeysDistinct(s)
    ensures s[i].0 !in KeysOf(s[..i]) && KeysOf(s[..i + 1]) == KeysOf(s[..i]) + {s[i].0}
  {
  }

  lemma {:induction false} KeysOfSize(s: seq<Aged>)
    requires KeysDistinct(s)
    ensures |KeysOf(s)| == |s|
    decreases |s|
  {
    if s == [] {
      assert KeysOf(s) == {};
    } else {
      var n := |s| - 1;
      KeysOfSize(s[..n]);
      KeysOfNext(s, n);
      assert s[..n + 1] == s;
    }
  }

  /** Of keys sorted by access, the first `n` are at most as recent as the others. */
  lemma FirstAreOldest(ages: map<int, int>, entries: seq<Aged>, n: nat, r: int, k: int)
    requires n <= |entries| && ByAccess(entries) && r in ages && k in ages
    requires forall e :: e in entries <==> e.0 in ages && e.1 == ages[e.0]
    requires r in KeysOf(entries[..n]) && k !in KeysOf(entries[..n])
    ensures ages[r] <= ages[k]
  {
    var f := (k, ages[k]);
    assert f in entries;
    var j :| 0 <= j < |entries| && entries[j] == f;
    forall m | 0 <= m < n ensures entries[m].0 in KeysOf(entries[..n]) {
      assert entries[..n][m] == entries[m];
    }
    var g :| g in entries[..n] && g.0 == r;
    var i :| 0 <= i < n && entries[..n][i] == g;
    assert entries[i] == g && g in entries;
  }

  /** The keys in some order, each once. */
  method CollectAges(ages: map<int, int>) returns (entries: seq<Aged>)
    ensures KeysDistinct(entries) && |entries| == |ages|
    ensures forall e :: e in entries <==> e.0 in ages && e.1 == ages[e.0]
  {
    entries := [];
    var left := ages.Keys;
    while left != {}
      invariant left <= ages.Keys && |entries| + |left| == |ages|
      invariant KeysDistinct(entries)
      invariant forall e :: e in entries <==> e.0 in ages && e.0 !in left && e.1 == ages[e.0]
      decreases |left|
    {
      NonEmpty(left);
      var id :| id in left;
      assert forall j :: 0 <= j < |entries| ==> entries[j] in entries;
      entries := entries + [(id, ages[id])];
      left := left - {id};
    }
  }

  /** All keys, the least recently used first. */
  method AgesInOrder(ages: map<int, int>) returns (entries: seq<Aged>)
    ensures ByAccess(entries) && KeysDistinct(entries) && |entries| == |ages|
    ensures forall e :: e in entries <==> e.0 in ages && e.1 == ages[e.0]
  {
    var collected := CollectAges(ages);
    entries := SortByAccess(collected);
    SortIsByAccess(collected);
    PermutationKeepsKeys(collected, entries);
  }
}
