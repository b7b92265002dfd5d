/** An append-only table of revisions: rows are only ever added, each identity's
    rows are numbered 0, 1, 2, ... and a revision is added only for new content. */
module AppendOnly {
  datatype Row<K, C> = Row(key: K, revision: nat, content: C)

  datatype Entry<K, C> = Entry(key: K, content: C)

  /** The stored revisions of one identity, in table order. */
  function History<K(==), C>(rows: seq<Row<K, C>>, key: K): seq<Row<K, C>> {
    if rows == [] then [] else
      var last := rows[|rows| - 1];
      History(rows[..|rows| - 1], key) + if last.key == key then [last] else []
  }

  /** Revisions 0..n without a gap, neighbours differing in content. */
  ghost predicate Chain<K, C>(h: seq<Row<K, C>>) {
    && (forall i :: 0 <= i < |h| ==> h[i].revision == i)
    && (forall i :: 0 <= i < |h| - 1 ==> h[i].content != h[i + 1].content)
  }

  ghost predicate Chained<K(!new), C>(rows: seq<Row<K, C>>) {
    forall key :: Chain(History(rows, key))
  }

  ghost predicate DistinctEntries<K, C>(entries: seq<Entry<K, C>>) {
    forall i, j :: 0 <= i < j < |entries| ==> entries[i].key != entries[j].key
  }

  predicate Unchanged<K(==), C(==)>(rows: seq<Row<K, C>>, e: Entry<K, C>) {
    var h := History(rows, e.key);
    h != [] && h[|h| - 1].content == e.content
  }

  /** The entry's next revision, if its content is not the newest stored. */
  function Added<K(==), C(==)>(rows: seq<Row<K, C>>, e: Entry<K, C>): seq<Row<K, C>> {
    if Unchanged(rows, e) then [] else [Row(e.key, |History(rows, e.key)|, e.content)]
  }

  /** The rows that persisting `entries` adds, all judged against the table as it was. */
  function NewRows<K(==), C(==)>(rows: seq<Row<K, C>>, entries: seq<Entry<K, C>>): seq<Row<K, C>> {
    if entries == [] then [] else
      var e := entries[|entries| - 1];
      NewRows(rows, entries[..|entries| - 1]) + Added(rows, e)
  }

  function Persist<K(==), C(==)>(rows: seq<Row<K, C>>, entries: seq<Entry<K, C>>): seq<Row<K, C>> {
    rows + NewRows(rows, entries)
  }

  lemma {:induction false} HistoryAppend<K, C>(rows: seq<Row<K, C>>, more: seq<Row<K, C>>, key: K)
    ensures History(rows + more, key) == History(rows, key) + History(more, key)
  {
    if more == [] {
      assert rows + more == rows;
    } else {
      HistoryAppend(rows, more[..|more| - 1], key);
      assert (rows + more)[..|rows + more| - 1] == rows + more[..|more| - 1];
    }
  }

  lemma {:induction false} HistoryHas<K, C>(rows: seq<Row<K, C>>, key: K)
    ensures forall r :: r in History(rows, key) <==> r in rows && r.key == key
  {
    if rows != [] {
      HistoryHas(rows[..|rows| - 1], key);
      assert rows == rows[..|rows| - 1] + [rows[|rows| - 1]];
    }
  }

  lemma AddedHistory<K, C>(rows: seq<Row<K, C>>, e: Entry<K, C>, key: K)
    ensures History(Added(rows, e), key) == if e.key == key then Added(rows, e) else []
  {
    assert forall r: Row<K, C> :: [r][..0] == [];
  }

  lemma {:induction false} NewRowsNone<K, C>(rows: seq<Row<K, C>>, entries: seq<Entry<K, C>>, key: K)
    requires forall i :: 0 <= i < |entries| ==> entries[i].key != key
    ensures History(NewRows(rows, entries), key) == []
  {
    if entries != [] {
      var init, last := entries[..|entries| - 1], entries[|entries| - 1];
      NewRowsNone(rows, init, key);
      AddedHistory(rows, last, key);
      HistoryAppend(NewRows(rows, init), Added(rows, last), key);
    }
  }

  /** What a persist adds to one identity: its one new revision, if the bundle brings new content for it. */
  lemma {:induction false} NewRowsOf<K, C>(rows: seq<Row<K, C>>, entries: seq<Entry<K, C>>, i: nat)
    requires DistinctEntries(entries) && i < |entries|
    ensures History(NewRows(rows, entries), entries[i].key) == Added(rows, entries[i])
  {
    var init, last, key := entries[..|entries| - 1], entries[|entries| - 1], entries[i].key;
    HistoryAppend(NewRows(rows, init), Added(rows, last), key);
    AddedHistory(rows, last, key);
    if i < |init| {
      NewRowsOf(rows, init, i);
    } else {
      NewRowsNone(rows, init, key);
    }
  }

  lemma ChainGrows<K, C>(rows: seq<Row<K, C>>, e: Entry<K, C>)
    requires Chain(History(rows, e.key))
    ensures Chain(History(rows, e.key) + Added(rows, e))
  {}

  /** Persisting keeps every identity's revisions 0..n, neighbours differing. */
  lemma PersistChains<K(!new), C>(rows: seq<Row<K, C>>, entries: seq<Entry<K, C>>)
    requires Chained(rows) && DistinctEntries(entries)
    ensures Chained(Persist(rows, entries))
    ensures rows <= Persist(rows, entries)
  {
    forall key ensures Chain(History(Persist(rows, entries), key)) {
      HistoryAppend(rows, NewRows(rows, entries), key);
      assert Chain(History(rows, key));
      if i :| 0 <= i < |entries| && entries[i].key == key {
        NewRowsOf(rows, entries, i);
        ChainGrows(rows, entries[i]);
      } else {
        NewRowsNone(rows, entries, key);
        assert History(rows, key) + [] == History(rows, key);
      }
    }
  }

  /** After a persist the newest stored content of every identity in the bundle is the bundle's. */
  lemma PersistedIsLatest<K, C>(rows: seq<Row<K, C>>, entries: seq<Entry<K, C>>, i: nat)
    requires DistinctEntries(entries) && i < |entries|
    ensures Unchanged(Persist(rows, entries), entries[i])
  {
    HistoryAppend(rows, NewRows(rows, entries), entries[i].key);
    NewRowsOf(rows, entries, i);
  }

  lemma {:induction false} AllUnchanged<K, C>(rows: seq<Row<K, C>>, entries: seq<Entry<K, C>>)
    requires forall e :: e in entries ==> Unchanged(rows, e)
    ensures NewRows(rows, entries) == []
  {
    if entries != [] {
      AllUnchanged(rows, entries[..|entries| - 1]);
      assert entries[|entries| - 1] in entries;
    }
  }

  /** Replaying a bundle inserts nothing. */
  lemma ReplayInsertsNothing<K, C>(rows: seq<Row<K, C>>, entries: seq<Entry<K, C>>)
    requires DistinctEntries(entries)
    ensures NewRows(Persist(rows, entries), entries) == []
    ensures Persist(Persist(rows, entries), entries) == Persist(rows, entries)
  {
    forall i | 0 <= i < |entries| ensures Unchanged(Persist(rows, entries), entries[i]) {
      PersistedIsLatest(rows, entries, i);
    }
    AllUnchanged(Persist(rows, entries), entries);
  }

  // ------------------------------------------------------------------
  // Any sequence of bundles
  // ------------------------------------------------------------------

  function PersistAll<K(==), C(==)>(rows: seq<Row<K, C>>, bundles: seq<seq<Entry<K, C>>>): seq<Row<K, C>> {
    if bundles == [] then rows else Persist(PersistAll(rows, bundles[..|bundles| - 1]), bundles[|bundles| - 1])
  }

  /** Over any sequence of bundles with distinct identities, the chains stay gapless and stored rows never change. */
  lemma {:induction false} LedgerSafe<K(!new), C>(rows: seq<Row<K, C>>, bundles: seq<seq<Entry<K, C>>>)
    requires Chained(rows) && forall b :: b in bundles ==> DistinctEntries(b)
    ensures Chained(PersistAll(rows, bundles))
    ensures rows <= PersistAll(rows, bundles)
  {
    if bundles != [] {
      var init := bundles[..|bundles| - 1];
      assert bundles[|bundles| - 1] in bundles;
      LedgerSafe(rows, init);
      PersistChains(PersistAll(rows, init), bundles[|bundles| - 1]);
    }
  }

  // ------------------------------------------------------------------
  // The latest-row table and batched insertion
  // ------------------------------------------------------------------

  /** Each identity's highest revision among the rows read. */
  method LatestRows<K(==), C>(read: seq<Row<K, C>>) returns (latest: map<K, Row<K, C>>)
    ensures forall k :: k in latest <==> exists r :: r in read && r.key == k
    ensures forall k :: k in latest ==> latest[k] in read && latest[k].key == k
    ensures forall r :: r in read ==> r.revision <= latest[r.key].revision
  {
    latest := map[];
    for i := 0 to |read|
      invariant forall k :: k in latest <==> exists r :: r in read[..i] && r.key == k
      invariant forall k :: k in latest ==> latest[k] in read[..i] && latest[k].key == k
      invariant forall r :: r in read[..i] ==> r.revision <= latest[r.key].revision
    {
      assert read[..i + 1] == read[..i] + [read[i]];
      if read[i].key !in latest || read[i].revision > latest[read[i].key].revision {
        latest := latest[read[i].key := read[i]];
      }
    }
    assert read[..|read|] == read;
  }

  predicate Occupied<K(==), C(==)>(rows: seq<Row<K, C>>, key: K, revision: nat) {
    exists r :: r in rows && r.key == key && r.revision == revision
  }

  /** No value meets a stored row or another value. */
  ghost predicate Insertable<K, C>(rows: seq<Row<K, C>>, values: seq<Row<K, C>>) {
    && (forall i :: 0 <= i < |values| ==> !Occupied(rows, values[i].key, values[i].revision))
    && (forall i, j :: 0 <= i < j < |values| ==>
         values[i].key != values[j].key || values[i].revision != values[j].revision)
  }

  /** INSERT ... ON CONFLICT DO NOTHING on (identity, revision), counting what went in. */
  method InsertIgnoringConflicts<K(==), C(==)>(rows: seq<Row<K, C>>, values: seq<Row<K, C>>)
    returns (rows': seq<Row<K, C>>, inserted: nat)
    ensures inserted <= |values|
    ensures inserted == |values| ==> rows' == rows + values
    ensures Insertable(rows, values) ==> inserted == |values|
  {
    rows', inserted := rows, 0;
    for i := 0 to |values|
      invariant inserted <= i
      invariant inserted == i ==> rows' == rows + values[..i]
      invariant Insertable(rows, values) ==> inserted == i
    {
      assert values[..i + 1] == values[..i] + [values[i]];
      if !Occupied(rows', values[i].key, values[i].revision) {
        rows', inserted := rows' + [values[i]], inserted + 1;
      }
    }
    assert values[..|values|] == values;
  }

  // ------------------------------------------------------------------
  // Why a conflict cannot happen
  // ------------------------------------------------------------------

  /** In a chained table a row's revision is the number of earlier rows of its identity. */
  lemma RevisionCounts<K(!new), C>(rows: seq<Row<K, C>>, i: nat)
    requires Chained(rows) && i < |rows|
    ensures rows[i].revision == |History(rows[..i], rows[i].key)|
  {
    var key := rows[i].key;
    assert rows == rows[..i] + rows[i..] && rows[i..] == [rows[i]] + rows[i + 1..];
    HistoryAppend(rows[..i], rows[i..], key);
    HistoryAppend([rows[i]], rows[i + 1..], key);
    assert History([rows[i]], key) == [rows[i]] by {
      assert [rows[i]][..0] == [];
    }
    assert Chain(History(rows, key));
    assert History(rows, key)[|History(rows[..i], key)|] == rows[i];
  }

  lemma ChainedUnique<K(!new), C>(rows: seq<Row<K, C>>, i: nat, j: nat)
    requires Chained(rows) && i < j < |rows| && rows[i].key == rows[j].key
    ensures rows[i].revision < rows[j].revision
  {
    var key := rows[i].key;
    RevisionCounts(rows, i);
    RevisionCounts(rows, j);
    assert rows[..j] == rows[..i] + rows[i..j] && rows[i..j] == [rows[i]] + rows[i + 1..j];
    HistoryAppend(rows[..i], rows[i..j], key);
    HistoryAppend([rows[i]], rows[i + 1..j], key);
    assert [rows[i]][..0] == [];
  }

  lemma ChainedInserts<K(!new), C>(rows: seq<Row<K, C>>, values: seq<Row<K, C>>)
    requires Chained(rows + values)
    ensures Insertable(rows, values)
  {
    var all := rows + values;
    forall i | 0 <= i < |values| ensures !Occupied(rows, values[i].key, values[i].revision) {
      if r :| r in rows && r.key == values[i].key && r.revision == values[i].revision {
        var a :| 0 <= a < |rows| && rows[a] == r;
        ChainedUnique(all, a, |rows| + i);
      }
    }
    forall i, j | 0 <= i < j < |values|
      ensures values[i].key != values[j].key || values[i].revision != values[j].revision
    {
      if values[i].key == values[j].key {
        ChainedUnique(all, |rows| + i, |rows| + j);
      }
    }
  }

  /** A latest-row table over rows that include the identity's history agrees with that history. */
  lemma LatestIsLast<K(!new), C>(rows: seq<Row<K, C>>, read: seq<Row<K, C>>, latest: map<K, Row<K, C>>, key: K)
    requires Chained(rows)
    requires forall r :: r in read ==> r in rows
    requires forall r :: r in rows && r.key == key ==> r in read
    requires forall k :: k in latest <==> exists r :: r in read && r.key == k
    requires forall k :: k in latest ==> latest[k] in read && latest[k].key == k
    requires forall r :: r in read ==> r.revision <= latest[r.key].revision
    ensures key in latest <==> History(rows, key) != []
    ensures key in latest ==>
      latest[key] == History(rows, key)[|History(rows, key)| - 1] && latest[key].revision + 1 == |History(rows, key)|
  {
    var h := History(rows, key);
    HistoryHas(rows, key);
    assert Chain(h);
    if h != [] {
      assert h[|h| - 1] in h && h[|h| - 1] in read;
      assert latest[key] in h;
      var i :| 0 <= i < |h| && h[i] == latest[key];
    }
    if key in latest {
      assert latest[key] in h;
    }
  }

  lemma NewRowsStep<K, C>(rows: seq<Row<K, C>>, entries: seq<Entry<K, C>>, i: nat)
    requires i < |entries|
    ensures NewRows(rows, entries[..i + 1]) == NewRows(rows, entries[..i]) + Added(rows, entries[i])
  {
    assert entries[..i + 1][..i] == entries[..i];
  }

  /** `latest` answers, for one identity, what the whole table would answer. */
  ghost predicate AnswersFor<K, C>(latest: map<K, Row<K, C>>, rows: seq<Row<K, C>>, key: K) {
    var h := History(rows, key);
    && (key in latest <==> h != [])
    && (key in latest ==> latest[key] == h[|h| - 1] && latest[key].revision + 1 == |h|)
  }

  ghost predicate Answers<K, C>(latest: map<K, Row<K, C>>, rows: seq<Row<K, C>>, entries: seq<Entry<K, C>>) {
    forall e :: e in entries ==> AnswersFor(latest, rows, e.key)
  }

  /** The row to insert for an entry, judged by the latest-row table; none if its content is the newest stored. */
  function NextRow<K(==), C(==)>(latest: map<K, Row<K, C>>, e: Entry<K, C>): seq<Row<K, C>> {
    if e.key in latest then
      if latest[e.key].content == e.content then [] else [Row(e.key, latest[e.key].revision + 1, e.content)]
    else [Row(e.key, 0, e.content)]
  }

  lemma NextRowIsAdded<K, C>(latest: map<K, Row<K, C>>, rows: seq<Row<K, C>>, e: Entry<K, C>)
    requires AnswersFor(latest, rows, e.key)
    ensures NextRow(latest, e) == Added(rows, e)
  {}

  lemma NextRowIsNew<K, C>(latest: map<K, Row<K, C>>, rows: seq<Row<K, C>>, entries: seq<Entry<K, C>>, i: nat)
    requires i < |entries| && AnswersFor(latest, rows, entries[i].key)
    ensures NewRows(rows, entries[..i + 1]) == NewRows(rows, entries[..i]) + NextRow(latest, entries[i])
  {
    NextRowIsAdded(latest, rows, entries[i]);
    NewRowsStep(rows, entries, i);
  }

  lemma PersistPrefixChains<K(!new), C>(rows: seq<Row<K, C>>, entries: seq<Entry<K, C>>, i: nat)
    requires Chained(rows) && DistinctEntries(entries) && i <= |entries|
    ensures Chained(rows + NewRows(rows, entries[..i]))
  {
    PersistChains(rows, entries[..i]);
  }

  // ------------------------------------------------------------------
  // In the rows' own terms
  // ------------------------------------------------------------------

  /** The row at `i` is the highest revision stored for its identity. */
  ghost predicate Newest<K, C>(rows: seq<Row<K, C>>, i: int) {
    && 0 <= i < |rows|
    && (forall j :: 0 <= j < |rows| && rows[j].key == rows[i].key ==> rows[j].revision <= rows[i].revision)
  }

  /** The newest row of the identity has the content. */
  ghost predicate Holds<K, C>(rows: seq<Row<K, C>>, key: K, content: C) {
    exists i :: Newest(rows, i) && rows[i].key == key && rows[i].content == content
  }

  lemma UnchangedMeans<K(!new), C>(rows: seq<Row<K, C>>, e: Entry<K, C>)
    requires Chained(rows)
    ensures Unchanged(rows, e) <==> Holds(rows, e.key, e.content)
  {
    var h := History(rows, e.key);
    HistoryHas(rows, e.key);
    assert Chain(h);
    if h != [] {
      var last := h[|h| - 1];
      assert last in h;
      var i :| 0 <= i < |rows| && rows[i] == last;
      forall j | 0 <= j < |rows| && rows[j].key == e.key ensures rows[j].revision <= last.revision {
        assert rows[j] in h;
      }
      assert Newest(rows, i);
      forall j | Newest(rows, j) && rows[j].key == e.key ensures rows[j] == last {
        assert rows[j] in h;
        var k :| 0 <= k < |h| && h[k] == rows[j];
      }
    }
    if i :| Newest(rows, i) && rows[i].key == e.key && rows[i].content == e.content {
      assert rows[i] in h;
    }
  }

  /** After a persist the newest row of every identity in the bundle has the bundle's content, and exactly one row was
      added for each that did not have it already. */
  lemma PersistTells<K(!new), C>(rows: seq<Row<K, C>>, entries: seq<Entry<K, C>>, i: nat)
    requires Chained(rows) && DistinctEntries(entries) && i < |entries|
    ensures Holds(Persist(rows, entries), entries[i].key, entries[i].content)
    ensures |History(Persist(rows, entries), entries[i].key)| ==
      |History(rows, entries[i].key)| + if Holds(rows, entries[i].key, entries[i].content) then 0 else 1
  {
    PersistChains(rows, entries);
    PersistedIsLatest(rows, entries, i);
    UnchangedMeans(Persist(rows, entries), entries[i]);
    UnchangedMeans(rows, entries[i]);
    HistoryAppend(rows, NewRows(rows, entries), entries[i].key);
    NewRowsOf(rows, entries, i);
  }

  /** And nothing is added for any other identity. */
  lemma PersistAddsOnly<K, C>(rows: seq<Row<K, C>>, entries: seq<Entry<K, C>>, r: Row<K, C>)
    requires r in Persist(rows, entries) && r !in rows
    ensures exists i :: 0 <= i < |entries| && entries[i].key == r.key
  {
    HistoryHas(NewRows(rows, entries), r.key);
    assert r in History(NewRows(rows, entries), r.key);
    if forall i :: 0 <= i < |entries| ==> entries[i].key != r.key {
      NewRowsNone(rows, entries, r.key);
    }
  }
}
