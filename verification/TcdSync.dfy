/** Synchronising the detail rows of one transaction with a list, keyed by the pair of
    toll ids.  Every statement may fail, with or without taking effect. */
module TcdSync {
  import opened Collections
  import opened Fates
  import opened Options

  /** `detail` stands for the columns the synchroniser only copies. */
  datatype Tcd = Tcd(id: int, transId: int, tollA: Option<int>, tollB: Option<int>, detail: string)

  type TollKey = (int, int)

  type Rows = map<int, Tcd>

  function OrZero(x: Option<int>): int {
    if x.Some? then x.value else 0
  }

  function KeyOf(t: Tcd): TollKey {
    (OrZero(t.tollA), OrZero(t.tollB))
  }

  predicate OfTrans(rows: Rows, tid: int, id: int) {
    id in rows && rows[id].transId == tid
  }

  /** The table key really is the id of each row. */
  predicate RowsOk(rows: Rows) {
    forall id :: id in rows ==> rows[id].id == id
  }

  /** The last entry per key, as collecting into a hash map leaves it. */
  function LastWins(list: seq<Tcd>): map<TollKey, Tcd> {
    FromPairs(Keyed(list))
  }

  function Keyed(list: seq<Tcd>): seq<(TollKey, Tcd)> {
    seq(|list|, i requires 0 <= i < |list| => (KeyOf(list[i]), list[i]))
  }

  lemma LastWinsNext(list: seq<Tcd>, i: nat)
    requires i < |list|
    ensures LastWins(list[..i + 1]) == LastWins(list[..i])[KeyOf(list[i]) := list[i]]
  {
    assert Keyed(list[..i + 1])[..i] == Keyed(list[..i]);
  }

  // ------------------------------------------------------------ what a save may do

  ghost predicate Ascending(s: seq<Tcd>) {
    forall i, j :: 0 <= i < j < |s| ==> s[i].id < s[j].id
  }

  /** The answer to the query for one transaction, ordered by id. */
  ghost predicate IsSelection(list: seq<Tcd>, rows: Rows, tid: int) {
    && Ascending(list)
    && (forall t :: t in list ==> OfTrans(rows, tid, t.id) && rows[t.id] == t)
    && (forall id :: OfTrans(rows, tid, id) ==> rows[id] in list)
  }

  function IdsOf(rows: Rows, tid: int): set<int> {
    set id | id in rows && rows[id].transId == tid
  }

  ghost predicate SelectedSoFar(list: seq<Tcd>, left: set<int>, rows: Rows, tid: int) {
    && left <= IdsOf(rows, tid)
    && Ascending(list)
    && (forall t :: t in list ==> OfTrans(rows, tid, t.id) && rows[t.id] == t && forall id :: id in left ==> t.id < id)
    && (forall id :: OfTrans(rows, tid, id) ==> id in left || rows[id] in list)
  }

  lemma SelectNext(list: seq<Tcd>, left: set<int>, rows: Rows, tid: int, least: int)
    requires SelectedSoFar(list, left, rows, tid) && RowsOk(rows)
    requires least in left && forall id :: id in left ==> least <= id
    ensures SelectedSoFar(list + [rows[least]], left - {least}, rows, tid)
  {
  }

  /** For every key among the transaction's rows, the row with the greatest id. */
  ghost predicate IsIndex(idx: map<TollKey, int>, rows: Rows, tid: int) {
    && (forall k :: k in idx ==> OfTrans(rows, tid, idx[k]) && KeyOf(rows[idx[k]]) == k)
    && (forall id :: OfTrans(rows, tid, id) ==> KeyOf(rows[id]) in idx && id <= idx[KeyOf(rows[id])])
  }

  lemma {:induction false} LastWinsOfSelection(list: seq<Tcd>, n: nat)
    requires n <= |list| && Ascending(list)
    ensures var m := LastWins(list[..n]);
            && (forall k :: k in m ==> KeyOf(m[k]) == k && m[k] in list[..n])
            && (forall i :: 0 <= i < n ==> KeyOf(list[i]) in m && list[i].id <= m[KeyOf(list[i])].id)
  {
    if n > 0 {
      LastWinsOfSelection(list, n - 1);
      LastWinsNext(list, n - 1);
      var m := LastWins(list[..n]);
      forall i | 0 <= i < n ensures KeyOf(list[i]) in m && list[i].id <= m[KeyOf(list[i])].id {
        assert i < n - 1 ==> list[i].id < list[n - 1].id;
      }
    }
  }

  lemma SelectionGivesIndex(list: seq<Tcd>, rows: Rows, tid: int)
    requires IsSelection(list, rows, tid) && RowsOk(rows)
    ensures IsIndex(map k | k in LastWins(list) :: LastWins(list)[k].id, rows, tid)
  {
    LastWinsOfSelection(list, |list|);
    assert list[..|list|] == list;
    var m := LastWins(list);
    var idx := map k | k in m :: m[k].id;
    forall id | OfTrans(rows, tid, id) ensures KeyOf(rows[id]) in idx && id <= idx[KeyOf(rows[id])] {
      var i :| 0 <= i < |list| && list[i] == rows[id];
    }
  }

  /** Row `id` is the one that an update for its key addresses. */
  predicate IsTarget(pre: Rows, tid: int, idx: map<TollKey, int>, id: int) {
    OfTrans(pre, tid, id) && KeyOf(pre[id]) in idx && idx[KeyOf(pre[id])] == id
  }

  /** The table after updating or inserting the entries with keys in `done`; `added`
      gives the key of each inserted row. */
  function Installed(pre: Rows, tid: int, idx: map<TollKey, int>, wanted: map<TollKey, Tcd>,
                     done: set<TollKey>, added: map<int, TollKey>): Rows
    requires done <= wanted.Keys && added.Values <= wanted.Keys
  {
    map id | id in pre.Keys + added.Keys ::
      if id in added then
        assert added[id] in added.Values;
        wanted[added[id]].(id := id)
      else if IsTarget(pre, tid, idx, id) && KeyOf(pre[id]) in done then wanted[KeyOf(pre[id])].(id := id)
      else pre[id]
  }

  /** Inserted rows are new, and there is exactly one per done key that had no row. */
  ghost predicate AddedOk(pre: Rows, idx: map<TollKey, int>, done: set<TollKey>, added: map<int, TollKey>) {
    && added.Keys !! pre.Keys
    && (forall id :: id in added ==> added[id] in done && added[id] !in idx)
    && (forall i, j :: i in added && j in added && added[i] == added[j] ==> i == j)
    && (forall k :: k in done && k !in idx ==> k in added.Values)
  }

  ghost predicate Progress(pre: Rows, post: Rows, tid: int, idx: map<TollKey, int>, wanted: map<TollKey, Tcd>,
                           done: set<TollKey>, added: map<int, TollKey>)
  {
    && done <= wanted.Keys && IsIndex(idx, pre, tid) && AddedOk(pre, idx, done, added)
    && added.Values <= wanted.Keys
    && post == Installed(pre, tid, idx, wanted, done, added)
  }

  function Stale(idx: map<TollKey, int>, wanted: map<TollKey, Tcd>): set<int> {
    set k | k in idx && k !in wanted :: idx[k]
  }

  function Without(rows: Rows, tid: int): Rows {
    map id | id in rows && rows[id].transId != tid :: rows[id]
  }

  /** The call returned an error. */
  ghost predicate Aborted(pre: Rows, post: Rows, tid: int, list: seq<Tcd>) {
    if list == [] then post == pre || post == Without(pre, tid)
    else exists idx, done, added :: Progress(pre, post, tid, idx, LastWins(list), done, added)
  }

  /** The call returned success; `kept` are the stale rows whose delete had no effect. */
  ghost predicate Completed(pre: Rows, post: Rows, tid: int, list: seq<Tcd>, kept: set<int>) {
    if list == [] then post == Without(pre, tid) && kept == {}
    else exists mid, idx, added :: CompletedVia(pre, post, tid, list, kept, mid, idx, added)
  }

  ghost predicate CompletedVia(pre: Rows, post: Rows, tid: int, list: seq<Tcd>, kept: set<int>,
                               mid: Rows, idx: map<TollKey, int>, added: map<int, TollKey>)
  {
    var wanted := LastWins(list);
    Progress(pre, mid, tid, idx, wanted, wanted.Keys, added)
    && kept <= Stale(idx, wanted) && post == mid - (Stale(idx, wanted) - kept)
  }

  // ------------------------------------------------------------ the synchroniser

  class TcdService {
    var rows: Rows
    /** Next value of the id sequence. */
    var sequence: int
    /** How many statements reported an error so far; deletes of single rows are counted
        apart. */
    ghost var failures: nat
    ghost var failedDeletes: nat

    constructor (rows: Rows, sequence: int)
      ensures this.rows == rows && this.sequence == sequence
    {
      this.rows, this.sequence, failures := rows, sequence, 0;
      failedDeletes := 0;
    }

    /** What becomes of the next statement. */
    method AnyFate() returns (fate: Fate)
      modifies this`failures
      ensures failures == old(failures) + if fate.Done? then 0 else 1
    {
      fate := *;
      if !fate.Done? {
        failures := failures + 1;
      }
    }

    method FindByTrans(tid: int) returns (found: Option<seq<Tcd>>)
      requires RowsOk(rows)
      modifies this`failures
      ensures found.Some? ==> IsSelection(found.value, rows, tid)
      ensures failures == old(failures) + if found.Some? then 0 else 1
    {
      var fails := *;
      if fails {
        failures := failures + 1;
        return None;
      }
      var list: seq<Tcd> := [];
      var left := IdsOf(rows, tid);
      while left != {}
        invariant SelectedSoFar(list, left, rows, tid) && failures == old(failures)
        decreases left
      {
        HasLeast(left);
        var least :| least in left && forall id :: id in left ==> least <= id;
        SelectNext(list, left, rows, tid, least);
        list := list + [rows[least]];
        left := left - {least};
      }
      return Some(list);
    }

    method Update(id: int, t: Tcd) returns (fate: Fate)
      modifies this`rows, this`failures
      ensures rows == if fate.Refused? || id !in old(rows) then old(rows) else old(rows)[id := t.(id := id)]
      ensures failures == old(failures) + if fate.Done? then 0 else 1
    {
      fate := AnyFate();
      if !fate.Refused? && id in rows {
        rows := rows[id := t.(id := id)];
      }
    }

    /** An id of 0 is replaced by a sequence value; an id already in use is refused. */
    method Insert(t: Tcd) returns (fate: Fate, ghost id: int)
      modifies this`rows, this`sequence, this`failures
      ensures fate.Refused? ==> rows == old(rows)
      ensures !fate.Refused? ==> id !in old(rows) && rows == old(rows)[id := t.(id := id)]
      ensures id == if t.id == 0 then old(sequence) else t.id
      ensures sequence == old(sequence) + if t.id == 0 then 1 else 0
      ensures failures == old(failures) + if fate.Done? then 0 else 1
    {
      fate := AnyFate();
      var key := t.id;
      if key == 0 {
        key := sequence;
        sequence := sequence + 1;
      }
      id := key;
      if key in rows {
        if fate.Done? {
          failures := failures + 1;
        }
        fate := Refused;
      } else if !fate.Refused? {
        rows := rows[key := t.(id := key)];
      }
    }

    method Delete(id: int) returns (fate: Fate)
      modifies this`rows, this`failedDeletes
      ensures rows == if fate.Refused? then old(rows) else old(rows) - {id}
      ensures failedDeletes == old(failedDeletes) + if fate.Done? then 0 else 1
    {
      fate := *;
      if !fate.Done? {
        failedDeletes := failedDeletes + 1;
      }
      if !fate.Refused? {
        rows := rows - {id};
      }
    }

    method DeleteByTrans(tid: int) returns (fate: Fate)
      modifies this`rows, this`failures
      ensures rows == if fate.Refused? then old(rows) else Without(old(rows), tid)
      ensures failures == old(failures) + if fate.Done? then 0 else 1
    {
      fate := AnyFate();
      if !fate.Refused? {
        rows := Without(rows, tid);
      }
    }

    /** Succeeds unless a statement other than the delete of a single row reports an error. */
    method SaveTcdList(tid: int, list: seq<Tcd>) returns (ok: bool, ghost kept: set<int>)
      requires RowsOk(rows)
      modifies this
      ensures ok ==> Completed(old(rows), rows, tid, list, kept)
      ensures !ok ==> Aborted(old(rows), rows, tid, list)
      ensures ok <==> failures == old(failures)
      ensures failedDeletes == old(failedDeletes) ==> kept == {}
    {
      kept := {};
      if list == [] {
        var fate := DeleteByTrans(tid);
        return fate.Done?, {};
      }
      var found := FindByTrans(tid);
      if found == None {
        NothingDone(rows, tid, list);
        return false, {};
      }
      ok, kept := Synchronise(tid, list, found.value);
    }

    method Synchronise(tid: int, list: seq<Tcd>, found: seq<Tcd>) returns (ok: bool, ghost kept: set<int>)
      requires list != [] && RowsOk(rows) && IsSelection(found, rows, tid)
      modifies this
      ensures ok ==> Completed(old(rows), rows, tid, list, kept)
      ensures !ok ==> Aborted(old(rows), rows, tid, list)
      ensures old(failures) <= failures && (ok <==> failures == old(failures))
      ensures failedDeletes == old(failedDeletes) ==> kept == {}
    {
      ghost var pre := rows;
      var wanted := Collect(list);
      var existing := Collect(found);
      ghost var idx := map k | k in existing :: existing[k].id;
      SelectionGivesIndex(found, rows, tid);
      ghost var done, added;
      ok, done, added := UpdateOrInsert(tid, wanted, existing, idx);
      if !ok {
        return false, {};
      }
      kept := DeleteStale(wanted, existing, idx);
      assert CompletedVia(pre, rows, tid, list, kept, Installed(pre, tid, idx, wanted, wanted.Keys, added), idx, added);
    }

    method Collect(list: seq<Tcd>) returns (m: map<TollKey, Tcd>)
      ensures m == LastWins(list)
    {
      m := map[];
      for i := 0 to |list|
        invariant m == LastWins(list[..i])
      {
        LastWinsNext(list, i);
        m := m[KeyOf(list[i]) := list[i]];
      }
      assert list[..|list|] == list;
    }

    /** The deduplicated entries come in no particular order; the first failing
        statement ends the call. */
    method UpdateOrInsert(tid: int, wanted: map<TollKey, Tcd>, existing: map<TollKey, Tcd>,
                          ghost idx: map<TollKey, int>)
      returns (ok: bool, ghost done: set<TollKey>, ghost added: map<int, TollKey>)
      requires idx == (map k | k in existing :: existing[k].id) && IsIndex(idx, rows, tid)
      modifies this`rows, this`sequence, this`failures
      ensures Progress(old(rows), rows, tid, idx, wanted, done, added) && (ok ==> done == wanted.Keys)
      ensures old(failures) <= failures && (ok <==> failures == old(failures))
    {
      ghost var pre := rows;
      var todo := wanted.Keys;
      done, added := {}, map[];
      assert rows == Installed(pre, tid, idx, wanted, {}, map[]);
      while todo != {}
        invariant todo <= wanted.Keys && done == wanted.Keys - todo
        invariant Progress(pre, rows, tid, idx, wanted, done, added) && failures == old(failures)
        decreases todo
      {
        var k :| k in todo;
        todo := todo - {k};
        var fate;
        fate, done, added := SaveOne(pre, tid, wanted, existing, idx, done, added, k);
        if !fate.Done? {
          return false, done, added;
        }
      }
      return true, done, added;
    }

    method SaveOne(ghost pre: Rows, tid: int, wanted: map<TollKey, Tcd>, existing: map<TollKey, Tcd>,
                   ghost idx: map<TollKey, int>, ghost done: set<TollKey>, ghost added: map<int, TollKey>, k: TollKey)
      returns (fate: Fate, ghost done': set<TollKey>, ghost added': map<int, TollKey>)
      requires idx == (map c | c in existing :: existing[c].id) && k in wanted && k !in done
      requires Progress(pre, rows, tid, idx, wanted, done, added)
      modifies this`rows, this`sequence, this`failures
      ensures done' == if fate.Refused? then done else done + {k}
      ensures Progress(pre, rows, tid, idx, wanted, done', added')
      ensures failures == old(failures) + if fate.Done? then 0 else 1
    {
      done', added' := done, added;
      ghost var before := rows;
      if k in existing {
        UpdateStep(pre, rows, tid, idx, wanted, done, added, k);
        fate := Update(existing[k].id, wanted[k].(id := existing[k].id));
      } else {
        ghost var id;
        fate, id := Insert(wanted[k]);
        if !fate.Refused? {
          InsertStep(pre, before, tid, idx, wanted, done, added, k, id);
          added' := added[id := k];
        }
      }
      if !fate.Refused? {
        done' := done + {k};
      }
    }

    /** A failing delete is only logged. */
    method DeleteStale(wanted: map<TollKey, Tcd>, existing: map<TollKey, Tcd>, ghost idx: map<TollKey, int>)
      returns (ghost kept: set<int>)
      requires idx == map k | k in existing :: existing[k].id
      requires forall k, l :: k in idx && l in idx && idx[k] == idx[l] ==> k == l
      modifies this`rows, this`failedDeletes
      ensures kept <= Stale(idx, wanted) && rows == old(rows) - (Stale(idx, wanted) - kept)
      ensures old(failedDeletes) <= failedDeletes && (failedDeletes == old(failedDeletes) ==> kept == {})
    {
      var todo := existing.Keys;
      ghost var refused, gone := {}, {};
      while todo != {}
        invariant todo <= idx.Keys && refused <= idx.Keys && gone <= idx.Keys
        invariant refused !! gone
        invariant refused + gone == idx.Keys - wanted.Keys - todo
        invariant rows == old(rows) - IdsAt(idx, gone)
        invariant old(failedDeletes) <= failedDeletes && (failedDeletes == old(failedDeletes) ==> refused == {})
        decreases todo
      {
        var k :| k in todo;
        todo := todo - {k};
        if k !in wanted {
          var fate := Delete(existing[k].id);
          if fate.Refused? {
            refused := refused + {k};
          } else {
            assert IdsAt(idx, gone + {k}) == IdsAt(idx, gone) + {idx[k]};
            gone := gone + {k};
          }
        }
      }
      kept := IdsAt(idx, refused);
      StaleSplits(idx, wanted, refused, gone);
    }
  }

  function IdsAt(idx: map<TollKey, int>, keys: set<TollKey>): set<int>
    requires keys <= idx.Keys
  {
    set k | k in keys :: idx[k]
  }

  lemma StaleSplits(idx: map<TollKey, int>, wanted: map<TollKey, Tcd>, refused: set<TollKey>, gone: set<TollKey>)
    requires forall k, l :: k in idx && l in idx && idx[k] == idx[l] ==> k == l
    requires refused !! gone && refused + gone == idx.Keys - wanted.Keys
    ensures IdsAt(idx, refused) <= Stale(idx, wanted)
    ensures Stale(idx, wanted) - IdsAt(idx, refused) == IdsAt(idx, gone)
  {
  }

  lemma NothingDone(pre: Rows, tid: int, list: seq<Tcd>)
    requires list != [] && RowsOk(pre)
    ensures Aborted(pre, pre, tid, list)
  {
    var idx := IndexOf(pre, tid);
    assert Progress(pre, pre, tid, idx, LastWins(list), {}, map[]);
  }

  lemma IndexOf(rows: Rows, tid: int) returns (idx: map<TollKey, int>)
    ensures IsIndex(idx, rows, tid)
  {
    idx := map[];
    var ids := IdsOf(rows, tid);
    var seen := {};
    while seen != ids
      invariant seen <= ids
      invariant forall k :: k in idx ==> idx[k] in seen && KeyOf(rows[idx[k]]) == k
      invariant forall id :: id in seen ==> KeyOf(rows[id]) in idx && id <= idx[KeyOf(rows[id])]
      decreases ids - seen
    {
      NonEmpty(ids - seen);
      var id :| id in ids - seen;
      var k := KeyOf(rows[id]);
      if k !in idx || idx[k] < id {
        idx := idx[k := id];
      }
      seen := seen + {id};
    }
  }

  lemma UpdateStep(pre: Rows, cur: Rows, tid: int, idx: map<TollKey, int>, wanted: map<TollKey, Tcd>,
                   done: set<TollKey>, added: map<int, TollKey>, k: TollKey)
    requires Progress(pre, cur, tid, idx, wanted, done, added) && k in idx && k in wanted
    ensures idx[k] in cur
    ensures Progress(pre, cur[idx[k] := wanted[k].(id := idx[k])], tid, idx, wanted, done + {k}, added)
  {
  }

  lemma AddedInsert(pre: Rows, idx: map<TollKey, int>, done: set<TollKey>, added: map<int, TollKey>,
                    k: TollKey, id: int)
    requires AddedOk(pre, idx, done, added) && k !in idx && k !in done && id !in pre && id !in added
    ensures AddedOk(pre, idx, done + {k}, added[id := k]) && added[id := k].Values == added.Values + {k}
  {
    ValuesAfterInsert(added, id, k);
  }

  lemma InstalledInsert(pre: Rows, tid: int, idx: map<TollKey, int>, wanted: map<TollKey, Tcd>,
                        done: set<TollKey>, added: map<int, TollKey>, k: TollKey, id: int)
    requires done <= wanted.Keys && k !in idx && k in wanted && id !in pre && id !in added
    requires added.Values <= wanted.Keys && added[id := k].Values <= wanted.Keys
    ensures Installed(pre, tid, idx, wanted, done + {k}, added[id := k]) ==
            Installed(pre, tid, idx, wanted, done, added)[id := wanted[k].(id := id)]
  {
  }

  lemma InsertStep(pre: Rows, cur: Rows, tid: int, idx: map<TollKey, int>, wanted: map<TollKey, Tcd>,
                   done: set<TollKey>, added: map<int, TollKey>, k: TollKey, id: int)
    requires Progress(pre, cur, tid, idx, wanted, done, added) && k !in idx && k in wanted && k !in done
    requires id !in cur
    ensures Progress(pre, cur[id := wanted[k].(id := id)], tid, idx, wanted, done + {k}, added[id := k])
  {
    AddedInsert(pre, idx, done, added, k, id);
    InstalledInsert(pre, tid, idx, wanted, done, added, k, id);
  }
}
