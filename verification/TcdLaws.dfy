/** What synchronising guarantees across calls: exactness, convergence of retries and
    idempotence. */
module TcdLaws {
  import opened Collections
  import opened TcdSync

  ghost predicate KeyUnique(rows: Rows, tid: int) {
    forall i, j :: OfTrans(rows, tid, i) && OfTrans(rows, tid, j) && KeyOf(rows[i]) == KeyOf(rows[j]) ==> i == j
  }

  ghost predicate ForTrans(list: seq<Tcd>, tid: int) {
    forall t :: t in list ==> t.transId == tid
  }

  /** The transaction's rows are the wanted entries, one row per key. */
  ghost predicate Exact(rows: Rows, tid: int, wanted: map<TollKey, Tcd>) {
    && KeyUnique(rows, tid)
    && (forall id :: OfTrans(rows, tid, id) ==>
          KeyOf(rows[id]) in wanted && rows[id] == wanted[KeyOf(rows[id])].(id := id))
    && (forall k :: k in wanted ==> HasRow(rows, tid, k))
  }

  ghost predicate HasRow(rows: Rows, tid: int, k: TollKey) {
    exists id :: OfTrans(rows, tid, id) && KeyOf(rows[id]) == k
  }

  /** Rows of other transactions are the same in both tables. */
  ghost predicate OthersSame(a: Rows, b: Rows, tid: int) {
    && (forall id :: id in a && a[id].transId != tid ==> id in b && b[id] == a[id])
    && (forall id :: id in b && b[id].transId != tid ==> id in a && a[id] == b[id])
  }

  /** Every row keeps its id, its transaction and its key. */
  ghost predicate RowsSurvive(a: Rows, b: Rows) {
    forall id :: id in a ==> id in b && b[id].transId == a[id].transId && KeyOf(b[id]) == KeyOf(a[id])
  }

  /** Position `i` holds the last entry with its key. */
  ghost predicate LastAt(list: seq<Tcd>, i: nat)
    requires i < |list|
  {
    forall j :: i < j < |list| ==> KeyOf(list[j]) != KeyOf(list[i])
  }

  lemma LastWinsIsLast(list: seq<Tcd>)
    ensures forall k :: k in LastWins(list) ==>
              exists i :: 0 <= i < |list| && list[i] == LastWins(list)[k] && KeyOf(list[i]) == k && LastAt(list, i)
    ensures forall t :: t in list ==> KeyOf(t) in LastWins(list)
  {
    var pairs := Keyed(list);
    FromPairsIsLast(pairs);
    forall k | k in LastWins(list)
      ensures exists i :: 0 <= i < |list| && list[i] == LastWins(list)[k] && KeyOf(list[i]) == k && LastAt(list, i)
    {
      var i :| LastFor(pairs, i, k) && FromPairs(pairs)[k] == pairs[i].1;
      forall j | i < j < |list| ensures KeyOf(list[j]) != KeyOf(list[i]) {
        assert pairs[j].0 != k;
      }
      assert LastAt(list, i);
    }
    forall t | t in list ensures KeyOf(t) in LastWins(list) {
      var i :| 0 <= i < |list| && list[i] == t;
      assert pairs[i].0 in FromPairs(pairs);
    }
  }

  /** Each wanted entry sits under its own key and belongs to the transaction. */
  ghost predicate WantedOk(wanted: map<TollKey, Tcd>, tid: int) {
    forall k :: k in wanted ==> KeyOf(wanted[k]) == k && wanted[k].transId == tid
  }

  lemma LastWinsOk(list: seq<Tcd>, tid: int)
    requires ForTrans(list, tid)
    ensures WantedOk(LastWins(list), tid)
  {
    LastWinsIsLast(list);
  }

  lemma ProgressShape(pre: Rows, post: Rows, tid: int, idx: map<TollKey, int>, wanted: map<TollKey, Tcd>,
                      done: set<TollKey>, added: map<int, TollKey>)
    requires Progress(pre, post, tid, idx, wanted, done, added) && WantedOk(wanted, tid)
    ensures RowsSurvive(pre, post) && OthersSame(pre, post, tid)
    ensures forall id :: id in post && id !in pre ==> id in added && KeyOf(post[id]) == added[id] && added[id] in wanted
    ensures forall id :: id in post && id !in pre ==> OfTrans(post, tid, id)
    ensures RowsOk(pre) ==> RowsOk(post)
  {
    forall id | id in added ensures added[id] in wanted {
      assert added[id] in added.Values;
    }
  }

  lemma ProgressKeepsUnique(pre: Rows, post: Rows, tid: int, idx: map<TollKey, int>, wanted: map<TollKey, Tcd>,
                            done: set<TollKey>, added: map<int, TollKey>)
    requires Progress(pre, post, tid, idx, wanted, done, added) && WantedOk(wanted, tid) && KeyUnique(pre, tid)
    ensures KeyUnique(post, tid)
  {
  }

  // ------------------------------------------------------------ main results

  /** A call that stops at a failed update or insert deletes nothing, adds no second
      row for a key and leaves other transactions alone. */
  lemma AbortDeletesNothing(pre: Rows, post: Rows, tid: int, list: seq<Tcd>)
    requires list != [] && ForTrans(list, tid) && Aborted(pre, post, tid, list)
    ensures RowsSurvive(pre, post) && OthersSame(pre, post, tid)
    ensures KeyUnique(pre, tid) ==> KeyUnique(post, tid)
    ensures RowsOk(pre) ==> RowsOk(post)
  {
    LastWinsOk(list, tid);
    var idx, done, added :| Progress(pre, post, tid, idx, LastWins(list), done, added);
    ProgressShape(pre, post, tid, idx, LastWins(list), done, added);
    if KeyUnique(pre, tid) {
      ProgressKeepsUnique(pre, post, tid, idx, LastWins(list), done, added);
    }
  }

  /** After a successful call, rows whose key is wanted keep their ids and rows of
      other transactions are untouched. */
  lemma CompletedKeepsIds(pre: Rows, post: Rows, tid: int, list: seq<Tcd>, kept: set<int>)
    requires ForTrans(list, tid) && Completed(pre, post, tid, list, kept)
    ensures OthersSame(pre, post, tid)
    ensures forall id :: OfTrans(pre, tid, id) && KeyOf(pre[id]) in LastWins(list) ==>
              OfTrans(post, tid, id) && KeyOf(post[id]) == KeyOf(pre[id])
  {
    if list != [] {
      var mid, idx, added :| CompletedVia(pre, post, tid, list, kept, mid, idx, added);
      CompletedViaKeepsIds(pre, post, tid, list, kept, mid, idx, added);
    }
  }

  lemma CompletedViaKeepsIds(pre: Rows, post: Rows, tid: int, list: seq<Tcd>, kept: set<int>,
                             mid: Rows, idx: map<TollKey, int>, added: map<int, TollKey>)
    requires ForTrans(list, tid) && CompletedVia(pre, post, tid, list, kept, mid, idx, added)
    ensures OthersSame(pre, post, tid)
    ensures forall id :: OfTrans(pre, tid, id) && KeyOf(pre[id]) in LastWins(list) ==>
              OfTrans(post, tid, id) && KeyOf(post[id]) == KeyOf(pre[id])
  {
    LastWinsOk(list, tid);
    var wanted := LastWins(list);
    ProgressShape(pre, mid, tid, idx, wanted, wanted.Keys, added);
    StaleRows(pre, tid, idx, wanted);
  }

  lemma StaleRows(pre: Rows, tid: int, idx: map<TollKey, int>, wanted: map<TollKey, Tcd>)
    requires IsIndex(idx, pre, tid)
    ensures forall id :: id in Stale(idx, wanted) ==> OfTrans(pre, tid, id) && KeyOf(pre[id]) !in wanted
  {
  }

  /** Exactly when success means an exact table: the rows were one per key before, and
      every stale row could be deleted (for an empty list, always). */
  lemma CompletedExactIff(pre: Rows, post: Rows, tid: int, list: seq<Tcd>, kept: set<int>)
    requires ForTrans(list, tid) && Completed(pre, post, tid, list, kept)
    ensures Exact(post, tid, LastWins(list)) <==> list == [] || (KeyUnique(pre, tid) && kept == {})
  {
    if list != [] {
      LastWinsOk(list, tid);
      var wanted := LastWins(list);
      var mid, idx, added :| CompletedVia(pre, post, tid, list, kept, mid, idx, added);
      ProgressShape(pre, mid, tid, idx, wanted, wanted.Keys, added);
      StaleRows(pre, tid, idx, wanted);
      if KeyUnique(pre, tid) && kept == {} {
        CompletedIsExact(pre, post, tid, list, mid, idx, added);
      } else if kept != {} {
        NonEmpty(kept);
        var id :| id in kept;
        assert OfTrans(post, tid, id) && KeyOf(post[id]) !in wanted;
      } else {
        DuplicateSurvives(pre, post, tid, list, mid, idx, added);
      }
    }
  }

  lemma UniqueRowsInstalled(pre: Rows, mid: Rows, tid: int, idx: map<TollKey, int>, wanted: map<TollKey, Tcd>,
                            added: map<int, TollKey>)
    requires Progress(pre, mid, tid, idx, wanted, wanted.Keys, added) && WantedOk(wanted, tid) && KeyUnique(pre, tid)
    ensures forall id :: OfTrans(mid, tid, id) && KeyOf(mid[id]) in wanted ==>
              mid[id] == wanted[KeyOf(mid[id])].(id := id)
    ensures forall id :: OfTrans(mid, tid, id) && KeyOf(mid[id]) !in wanted ==> id in Stale(idx, wanted)
  {
  }

  lemma WantedHaveRows(pre: Rows, mid: Rows, tid: int, idx: map<TollKey, int>, wanted: map<TollKey, Tcd>,
                       added: map<int, TollKey>, k: TollKey)
    requires Progress(pre, mid, tid, idx, wanted, wanted.Keys, added) && WantedOk(wanted, tid) && k in wanted
    ensures HasRow(mid, tid, k)
  {
    ProgressShape(pre, mid, tid, idx, wanted, wanted.Keys, added);
    if k in idx {
      assert OfTrans(mid, tid, idx[k]) && KeyOf(mid[idx[k]]) == k;
    } else {
      HasKey(added, k);
      var id :| id in added && added[id] == k;
      assert OfTrans(mid, tid, id) && KeyOf(mid[id]) == k;
    }
  }

  lemma CompletedIsExact(pre: Rows, post: Rows, tid: int, list: seq<Tcd>,
                         mid: Rows, idx: map<TollKey, int>, added: map<int, TollKey>)
    requires ForTrans(list, tid) && CompletedVia(pre, post, tid, list, {}, mid, idx, added)
    requires KeyUnique(pre, tid)
    ensures Exact(post, tid, LastWins(list))
  {
    var wanted := LastWins(list);
    LastWinsOk(list, tid);
    ProgressKeepsUnique(pre, mid, tid, idx, wanted, wanted.Keys, added);
    UniqueRowsInstalled(pre, mid, tid, idx, wanted, added);
    forall k | k in wanted ensures HasRow(post, tid, k) {
      WantedHaveRows(pre, mid, tid, idx, wanted, added, k);
      var id :| OfTrans(mid, tid, id) && KeyOf(mid[id]) == k;
      StaleNotWanted(pre, mid, tid, idx, wanted, added, id);
      assert OfTrans(post, tid, id) && KeyOf(post[id]) == k;
    }
  }

  lemma StaleNotWanted(pre: Rows, mid: Rows, tid: int, idx: map<TollKey, int>, wanted: map<TollKey, Tcd>,
                       added: map<int, TollKey>, id: int)
    requires Progress(pre, mid, tid, idx, wanted, wanted.Keys, added) && WantedOk(wanted, tid)
    requires OfTrans(mid, tid, id) && KeyOf(mid[id]) in wanted
    ensures id !in Stale(idx, wanted)
  {
  }

  /** Of two rows with one key, a save sees only the later; the earlier stays behind. */
  lemma DuplicateSurvives(pre: Rows, post: Rows, tid: int, list: seq<Tcd>,
                          mid: Rows, idx: map<TollKey, int>, added: map<int, TollKey>)
    requires ForTrans(list, tid) && CompletedVia(pre, post, tid, list, {}, mid, idx, added)
    requires !KeyUnique(pre, tid)
    ensures !Exact(post, tid, LastWins(list))
  {
    var wanted := LastWins(list);
    LastWinsOk(list, tid);
    ProgressShape(pre, mid, tid, idx, wanted, wanted.Keys, added);
    var i, j :| OfTrans(pre, tid, i) && OfTrans(pre, tid, j) && KeyOf(pre[i]) == KeyOf(pre[j]) && i != j;
    var k := KeyOf(pre[i]);
    var shadowed := if idx[k] == i then j else i;
    assert shadowed !in Stale(idx, wanted);
    assert OfTrans(post, tid, shadowed) && KeyOf(post[shadowed]) == k;
    if k in wanted {
      assert OfTrans(post, tid, idx[k]) && KeyOf(post[idx[k]]) == k;
    }
  }

  // ------------------------------------------------------------ by the two toll columns

  /** Both toll columns agree, a missing one counting as 0. */
  predicate SameTolls(s: Tcd, t: Tcd) {
    && (match s.tollA case Some(a) => a case None => 0) == (match t.tollA case Some(a) => a case None => 0)
    && (match s.tollB case Some(b) => b case None => 0) == (match t.tollB case Some(b) => b case None => 0)
  }

  /** No later entry of the list has the same tolls. */
  ghost predicate IsLastEntry(list: seq<Tcd>, n: int) {
    0 <= n < |list| && forall m :: n < m < |list| ==> !SameTolls(list[m], list[n])
  }

  /** Row `id` holds what the list has last for its tolls. */
  ghost predicate HoldsLastEntry(rows: Rows, id: int, list: seq<Tcd>) {
    id in rows && exists n :: IsLastEntry(list, n) && rows[id] == list[n].(id := id)
  }

  ghost predicate OneRowPerTolls(rows: Rows, tid: int) {
    forall i, j :: i in rows && j in rows && rows[i].transId == tid == rows[j].transId && SameTolls(rows[i], rows[j])
                   ==> i == j
  }

  lemma SameTollsIsKey(s: Tcd, t: Tcd)
    ensures SameTolls(s, t) <==> KeyOf(s) == KeyOf(t)
  {
  }

  lemma WantedIsLastEntry(list: seq<Tcd>, k: TollKey) returns (n: int)
    requires k in LastWins(list)
    ensures IsLastEntry(list, n) && list[n] == LastWins(list)[k] && KeyOf(list[n]) == k
  {
    LastWinsIsLast(list);
    n :| 0 <= n < |list| && list[n] == LastWins(list)[k] && KeyOf(list[n]) == k && LastAt(list, n);
    forall m | n < m < |list| ensures !SameTolls(list[m], list[n]) {
      SameTollsIsKey(list[m], list[n]);
    }
  }

  lemma LastEntryIsWanted(list: seq<Tcd>, n: int)
    requires IsLastEntry(list, n)
    ensures KeyOf(list[n]) in LastWins(list) && LastWins(list)[KeyOf(list[n])] == list[n]
  {
    LastWinsIsLast(list);
    assert list[n] in list;
    var k := KeyOf(list[n]);
    var m := WantedIsLastEntry(list, k);
    SameTollsIsKey(list[m], list[n]);
    SameTollsIsKey(list[n], list[m]);
  }

  lemma OneRowIsKeyUnique(rows: Rows, tid: int)
    ensures OneRowPerTolls(rows, tid) <==> KeyUnique(rows, tid)
  {
    forall i, j | i in rows && j in rows ensures SameTolls(rows[i], rows[j]) <==> KeyOf(rows[i]) == KeyOf(rows[j]) {
      SameTollsIsKey(rows[i], rows[j]);
    }
    assert forall id :: OfTrans(rows, tid, id) <==> id in rows && rows[id].transId == tid;
  }

  lemma EntryHasRow(post: Rows, tid: int, list: seq<Tcd>, n: int)
    requires Exact(post, tid, LastWins(list)) && IsLastEntry(list, n)
    ensures exists id :: id in post && post[id] == list[n].(id := id)
  {
    LastEntryIsWanted(list, n);
    assert HasRow(post, tid, KeyOf(list[n]));
    var id :| OfTrans(post, tid, id) && KeyOf(post[id]) == KeyOf(list[n]);
    assert post[id] == list[n].(id := id);
  }

  lemma RowHoldsEntry(post: Rows, tid: int, list: seq<Tcd>, id: int)
    requires Exact(post, tid, LastWins(list)) && id in post && post[id].transId == tid
    ensures HoldsLastEntry(post, id, list)
  {
    assert OfTrans(post, tid, id);
    var n := WantedIsLastEntry(list, KeyOf(post[id]));
    assert post[id] == list[n].(id := id);
  }

  /** What a save without failures leaves, in terms of the columns: if the transaction had
      at most one row for each pair of tolls, then it has exactly one for each pair in the
      list, with the contents of the last such entry, and no other row; rows of other
      transactions are the same.  So entries that differ in either toll get rows of their
      own. */
  lemma SaveLeavesLastEntries(pre: Rows, post: Rows, tid: int, list: seq<Tcd>)
    requires (forall t :: t in list ==> t.transId == tid) && Completed(pre, post, tid, list, {})
    requires OneRowPerTolls(pre, tid)
    ensures forall n :: IsLastEntry(list, n) ==> exists id :: id in post && post[id] == list[n].(id := id)
    ensures forall id :: id in post && post[id].transId == tid ==> HoldsLastEntry(post, id, list)
    ensures OneRowPerTolls(post, tid)
    ensures forall id :: id in pre && pre[id].transId != tid ==> id in post && post[id] == pre[id]
    ensures forall id :: id in post && post[id].transId != tid ==> id in pre && pre[id] == post[id]
  {
    OneRowIsKeyUnique(pre, tid);
    CompletedExactIff(pre, post, tid, list, {});
    CompletedKeepsIds(pre, post, tid, list, {});
    OneRowIsKeyUnique(post, tid);
    forall n | IsLastEntry(list, n) ensures exists id :: id in post && post[id] == list[n].(id := id) {
      EntryHasRow(post, tid, list, n);
    }
    forall id | id in post && post[id].transId == tid ensures HoldsLastEntry(post, id, list) {
      RowHoldsEntry(post, tid, list, id);
    }
  }

  /** What a save that fails at an update or insert leaves: no row is gone, each row keeps
      its transaction and tolls and is as before or holds the last such entry of the list,
      which every new row does. */
  lemma AbortLeavesRows(pre: Rows, post: Rows, tid: int, list: seq<Tcd>)
    requires list != [] && (forall t :: t in list ==> t.transId == tid) && Aborted(pre, post, tid, list)
    ensures forall id :: id in pre ==>
              id in post && post[id].transId == pre[id].transId && SameTolls(post[id], pre[id])
    ensures forall id :: id in post ==>
              (id in pre && post[id] == pre[id]) || (post[id].transId == tid && HoldsLastEntry(post, id, list))
  {
    AbortDeletesNothing(pre, post, tid, list);
    forall id | id in pre ensures SameTolls(post[id], pre[id]) {
      SameTollsIsKey(post[id], pre[id]);
    }
    var idx, done, added :| Progress(pre, post, tid, idx, LastWins(list), done, added);
    forall id | id in post && !(id in pre && post[id] == pre[id])
      ensures post[id].transId == tid && HoldsLastEntry(post, id, list)
    {
      ChangedRowIsWanted(pre, post, tid, idx, LastWins(list), done, added, id);
      LastWinsOk(list, tid);
      var k :| k in LastWins(list) && post[id] == LastWins(list)[k].(id := id);
      var n := WantedIsLastEntry(list, k);
    }
  }

  lemma ChangedRowIsWanted(pre: Rows, post: Rows, tid: int, idx: map<TollKey, int>, wanted: map<TollKey, Tcd>,
                           done: set<TollKey>, added: map<int, TollKey>, id: int)
    requires Progress(pre, post, tid, idx, wanted, done, added)
    requires id in post && !(id in pre && post[id] == pre[id])
    ensures exists k :: k in wanted && post[id] == wanted[k].(id := id)
  {
    if id in added {
      assert added[id] in added.Values;
      assert post[id] == wanted[added[id]].(id := id);
    } else {
      assert post[id] == wanted[KeyOf(pre[id])].(id := id);
    }
  }

  ghost predicate Attempts(tables: seq<Rows>, tid: int, list: seq<Tcd>) {
    |tables| > 0 && forall i :: 0 <= i < |tables| - 1 ==> Aborted(tables[i], tables[i + 1], tid, list)
  }

  lemma {:induction false} AttemptsKeepRows(tables: seq<Rows>, tid: int, list: seq<Tcd>)
    requires list != [] && ForTrans(list, tid) && Attempts(tables, tid, list)
    ensures var last := tables[|tables| - 1];
            && RowsSurvive(tables[0], last) && OthersSame(tables[0], last, tid)
            && (KeyUnique(tables[0], tid) ==> KeyUnique(last, tid))
    decreases |tables|
  {
    if |tables| > 1 {
      var n := |tables| - 1;
      AttemptsKeepRows(tables[..n], tid, list);
      assert Aborted(tables[n - 1], tables[n - 1 + 1], tid, list);
      AbortDeletesNothing(tables[n - 1], tables[n], tid, list);
    }
  }

  /** The same keys with the same contents, whatever the row ids. */
  ghost predicate SameByKey(a: Rows, b: Rows, tid: int) {
    forall i :: OfTrans(a, tid, i) ==> exists j :: OfTrans(b, tid, j) && b[j] == a[i].(id := j)
  }

  /** Retries converge: after any number of failed attempts, a successful one reaches
      the table that a failure-free first call would have reached, up to the ids of
      rows that were new, and every wanted prior row still has its id. */
  lemma RetriesConverge(tables: seq<Rows>, post: Rows, reference: Rows, tid: int, list: seq<Tcd>)
    requires list != [] && ForTrans(list, tid) && Attempts(tables, tid, list) && KeyUnique(tables[0], tid)
    requires Completed(tables[|tables| - 1], post, tid, list, {})
    requires Completed(tables[0], reference, tid, list, {})
    ensures Exact(post, tid, LastWins(list))
    ensures SameByKey(post, reference, tid) && SameByKey(reference, post, tid)
    ensures OthersSame(tables[0], post, tid)
    ensures forall id :: OfTrans(tables[0], tid, id) && KeyOf(tables[0][id]) in LastWins(list) ==>
              OfTrans(post, tid, id)
  {
    var last := tables[|tables| - 1];
    AttemptsKeepRows(tables, tid, list);
    CompletedExactIff(last, post, tid, list, {});
    CompletedExactIff(tables[0], reference, tid, list, {});
    CompletedKeepsIds(last, post, tid, list, {});
    ExactSameByKey(post, reference, tid, LastWins(list));
    ExactSameByKey(reference, post, tid, LastWins(list));
  }

  lemma ExactSameByKey(a: Rows, b: Rows, tid: int, wanted: map<TollKey, Tcd>)
    requires Exact(a, tid, wanted) && Exact(b, tid, wanted)
    ensures SameByKey(a, b, tid)
  {
  }

  lemma WantedIsIndexed(pre: Rows, tid: int, idx: map<TollKey, int>, wanted: map<TollKey, Tcd>)
    requires Exact(pre, tid, wanted) && IsIndex(idx, pre, tid)
    ensures Stale(idx, wanted) == {} && forall k :: k in wanted ==> k in idx
  {
    forall k | k in wanted ensures k in idx {
      assert HasRow(pre, tid, k);
    }
  }

  /** An exact table needs no new row, and updates write what is there. */
  lemma InstallChangesNothing(pre: Rows, mid: Rows, tid: int, idx: map<TollKey, int>, wanted: map<TollKey, Tcd>,
                              added: map<int, TollKey>)
    requires Exact(pre, tid, wanted) && Progress(pre, mid, tid, idx, wanted, wanted.Keys, added)
    ensures mid == pre
  {
    WantedIsIndexed(pre, tid, idx, wanted);
    assert forall id :: id !in added;
    assert added.Keys == {};
  }

  lemma RerunVia(pre: Rows, post: Rows, tid: int, list: seq<Tcd>, kept: set<int>,
                 mid: Rows, idx: map<TollKey, int>, added: map<int, TollKey>)
    requires Exact(pre, tid, LastWins(list)) && CompletedVia(pre, post, tid, list, kept, mid, idx, added)
    ensures post == pre
  {
    InstallChangesNothing(pre, mid, tid, idx, LastWins(list), added);
    WantedIsIndexed(pre, tid, idx, LastWins(list));
  }

  /** Saving the same list again changes nothing at all: no insert, no delete, and
      each update writes what is already there. */
  lemma RerunChangesNothing(pre: Rows, post: Rows, tid: int, list: seq<Tcd>, kept: set<int>)
    requires list != [] && ForTrans(list, tid) && Exact(pre, tid, LastWins(list))
    requires Completed(pre, post, tid, list, kept)
    ensures post == pre
  {
    var mid, idx, added :| CompletedVia(pre, post, tid, list, kept, mid, idx, added);
    RerunVia(pre, post, tid, list, kept, mid, idx, added);
  }
}
