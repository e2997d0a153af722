/** Facts about finite sets, maps and sequences that the models share. */
module Collections {

  function SetOf<T>(s: seq<T>): set<T> {
    set x | x in s
  }

  function Count<T>(s: seq<T>, p: T -> bool): nat {
    if s == [] then 0 else Count(s[..|s| - 1], p) + if p(s[|s| - 1]) then 1 else 0
  }

  /** `r` answers, in order, for every element of `s` that satisfies `p`, and for nothing
      else; `f` says what answers for what. */
  ghost predicate Keeps<T, U>(s: seq<T>, p: T -> bool, f: (T, U) -> bool, r: seq<U>) {
    && |r| == Count(s, p)
    && forall i :: 0 <= i < |s| && p(s[i]) ==> Count(s[..i], p) < |r| && f(s[i], r[Count(s[..i], p)])
  }

  lemma KeepsNext<T, U>(s: seq<T>, p: T -> bool, f: (T, U) -> bool, r: seq<U>, x: T, r': seq<U>)
    requires Keeps(s, p, f, r)
    requires if p(x) then |r'| == |r| + 1 && r'[..|r|] == r && f(x, r'[|r|]) else r' == r
    ensures Keeps(s + [x], p, f, r')
  {
    var s' := s + [x];
    assert s'[..|s|] == s;
    forall i | 0 <= i < |s'| && p(s'[i]) ensures Count(s'[..i], p) < |r'| && f(s'[i], r'[Count(s'[..i], p)]) {
      if i < |s| {
        assert s'[..i] == s[..i];
        assert r'[Count(s[..i], p)] == r[Count(s[..i], p)];
      }
    }
  }

  lemma NonEmpty(s: set<int>)
    ensures s == {} || exists x :: x in s
  {
    if forall x :: x !in s {
      assert s == {};
    }
  }

  lemma HasKey<V>(m: map<int, V>, v: V)
    ensures v !in m.Values || exists k :: k in m && m[k] == v
  {
    if forall k :: k in m ==> m[k] != v {
      assert v !in m.Values;
    }
  }

  lemma ValuesAfterInsert<V>(m: map<int, V>, k: int, v: V)
    requires k !in m
    ensures m[k := v].Values == m.Values + {v}
  {
    var m' := m[k := v];
    assert m'[k] == v;
    forall w | w in m.Values ensures w in m'.Values {
      HasKey(m, w);
      var j :| j in m && m[j] == w;
      assert m'[j] == w;
    }
    forall w | w in m'.Values ensures w in m.Values + {v} {
      HasKey(m', w);
      var j :| j in m' && m'[j] == w;
    }
  }

  lemma {:induction false} LeastOf(s: set<int>) returns (m: int)
    requires s != {}
    ensures m in s && forall x :: x in s ==> m <= x
    decreases s
  {
    NonEmpty(s);
    m :| m in s;
    if s != {m} {
      var rest := s - {m};
      var n := LeastOf(rest);
      assert forall x :: x in s ==> x == m || x in rest;
      m := if m < n then m else n;
    }
  }

  lemma HasLeast(s: set<int>)
    requires s != {}
    ensures exists m :: m in s && forall x :: x in s ==> m <= x
  {
    var m := LeastOf(s);
  }

  /** Collecting pairs into a hash map: the last pair per key wins. */
  function FromPairs<K, V>(pairs: seq<(K, V)>): map<K, V> {
    if pairs == [] then map[]
    else
      var n := |pairs| - 1;
      FromPairs(pairs[..n])[pairs[n].0 := pairs[n].1]
  }

  ghost predicate LastFor<K, V>(pairs: seq<(K, V)>, i: int, k: K) {
    0 <= i < |pairs| && pairs[i].0 == k && forall j :: i < j < |pairs| ==> pairs[j].0 != k
  }

  lemma {:induction false} FromPairsIsLast<K, V>(pairs: seq<(K, V)>)
    ensures forall i :: 0 <= i < |pairs| ==> pairs[i].0 in FromPairs(pairs)
    ensures forall k :: k in FromPairs(pairs) ==>
              exists i :: LastFor(pairs, i, k) && FromPairs(pairs)[k] == pairs[i].1
    decreases |pairs|
  {
    if pairs != [] {
      var n := |pairs| - 1;
      var front := pairs[..n];
      FromPairsIsLast(front);
      forall k | k in FromPairs(pairs)
        ensures exists i :: LastFor(pairs, i, k) && FromPairs(pairs)[k] == pairs[i].1
      {
        if k == pairs[n].0 {
          assert LastFor(pairs, n, k);
        } else {
          var i :| LastFor(front, i, k) && FromPairs(front)[k] == front[i].1;
          assert LastFor(pairs, i, k);
        }
      }
    }
  }

  ghost predicate KeyIn<K, V>(pairs: seq<(K, V)>, k: K) {
    exists i :: 0 <= i < |pairs| && pairs[i].0 == k
  }

  ghost predicate IsLastPair<K, V>(pairs: seq<(K, V)>, i: int) {
    0 <= i < |pairs| && forall j :: i < j < |pairs| ==> pairs[j].0 != pairs[i].0
  }

  lemma FromPairsHolds<K, V>(pairs: seq<(K, V)>)
    ensures forall k :: k in FromPairs(pairs) <==> KeyIn(pairs, k)
    ensures forall i :: IsLastPair(pairs, i) ==>
              pairs[i].0 in FromPairs(pairs) && FromPairs(pairs)[pairs[i].0] == pairs[i].1
  {
    FromPairsIsLast(pairs);
    forall k | k in FromPairs(pairs) ensures KeyIn(pairs, k) {
      var i :| LastFor(pairs, i, k) && FromPairs(pairs)[k] == pairs[i].1;
    }
    forall i | IsLastPair(pairs, i) ensures FromPairs(pairs)[pairs[i].0] == pairs[i].1 {
      var j :| LastFor(pairs, j, pairs[i].0) && FromPairs(pairs)[pairs[i].0] == pairs[j].1;
      assert i == j;
    }
  }
}
