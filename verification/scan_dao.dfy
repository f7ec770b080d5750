/**
 * The contract of data/dao/ScanDao.kt over an abstract table.
 *
 * Rows are kept in insertion order; `lastId` is the AUTOINCREMENT counter
 * (the largest id ever used), so automatically assigned ids are never reused.
 */
module ScanDao {
  import opened Wrappers
  import opened ScanRecord

  datatype Store = Store(rows: seq<Scan>, lastId: int)

  /** A fresh database: no rows, counter at zero. */
  const EmptyStore: Store := Store([], 0)

  /** Default conflict strategy of @Insert (ABORT): a duplicate primary key fails the insert. */
  datatype InsertError = ConstraintViolation

  /** Primary-key discipline: ids pairwise distinct, none above the counter. */
  predicate Valid(st: Store)
  {
    && (forall i, j :: 0 <= i < j < |st.rows| ==> st.rows[i].id != st.rows[j].id)
    && (forall i :: 0 <= i < |st.rows| ==> st.rows[i].id <= st.lastId)
  }

  /** Some stored row already has this id. */
  predicate IdInUse(st: Store, id: int)
  {
    exists i :: 0 <= i < |st.rows| && st.rows[i].id == id
  }

  /**
   * insert: an id of 0 is replaced by the next counter value; an explicit id is
   * kept, and rejected when a stored row already has it. Content and timestamp
   * are stored as given.
   */
  function Insert(st: Store, s: Scan): (r: Result<Store, InsertError>)
    ensures r.Failure? <==> s.id != UnassignedId && IdInUse(st, s.id)
    ensures r.Success? ==> |r.value.rows| == |st.rows| + 1 && r.value.rows[..|st.rows|] == st.rows
    ensures r.Success? ==> r.value.rows[|st.rows|].content == s.content
    ensures r.Success? ==> r.value.rows[|st.rows|].timestamp == s.timestamp
    ensures r.Success? && s.id != UnassignedId ==> r.value.rows[|st.rows|].id == s.id
    ensures r.Success? && Valid(st) ==> Valid(r.value) && !IdInUse(st, r.value.rows[|st.rows|].id)
    ensures r.Success? && Valid(st) && s.id == UnassignedId ==>
      forall i :: 0 <= i < |st.rows| ==> st.rows[i].id < r.value.rows[|st.rows|].id
  {
    if s.id == UnassignedId then
      var id := st.lastId + 1;
      Success(Store(st.rows + [s.(id := id)], id))
    else if IdInUse(st, s.id) then
      Failure(ConstraintViolation)
    else
      Success(Store(st.rows + [s], if s.id > st.lastId then s.id else st.lastId))
  }

  /**
   * A scan constructed with the defaults never fails on the primary key: it gets an id no
   * stored row has, and keeps the timestamp read when it was constructed.
   */
  lemma InsertNewScan(st: Store, content: string, now: int)
    requires Valid(st)
    ensures Insert(st, NewScan(content, now)).Success?
    ensures var added := Insert(st, NewScan(content, now)).value.rows[|st.rows|];
      added.content == content && added.timestamp == now && !IdInUse(st, added.id)
  {
  }

  /** Timestamps never increase along the sequence: newest first. */
  predicate NewestFirst(out: seq<Scan>)
  {
    forall i, j :: 0 <= i < j < |out| ==> out[i].timestamp >= out[j].timestamp
  }

  /**
   * What `SELECT * FROM scans ORDER BY timestamp DESC` may return: every row
   * exactly as often as it is stored, ordered newest first. Rows with equal
   * timestamps may come in any order.
   */
  predicate IsListing(rows: seq<Scan>, out: seq<Scan>)
  {
    multiset(out) == multiset(rows) && NewestFirst(out)
  }

  /** Places one scan into a newest-first sequence. */
  function InsertNewestFirst(s: Scan, out: seq<Scan>): (r: seq<Scan>)
    requires NewestFirst(out)
    ensures NewestFirst(r)
    ensures multiset(r) == multiset(out) + multiset{s}
  {
    if |out| == 0 || s.timestamp >= out[0].timestamp then
      [s] + out
    else
      var rest := InsertNewestFirst(s, out[1..]);
      assert out == [out[0]] + out[1..];
      BoundedByHead(s, out, rest);
      [out[0]] + rest
  }

  /** Every element of a permutation of `s` and the tail of `out` is no newer than the head of `out`. */
  lemma BoundedByHead(s: Scan, out: seq<Scan>, rest: seq<Scan>)
    requires NewestFirst(out) && |out| > 0
    requires s.timestamp < out[0].timestamp
    requires multiset(rest) == multiset(out[1..]) + multiset{s}
    ensures forall j :: 0 <= j < |rest| ==> rest[j].timestamp <= out[0].timestamp
  {
    forall j | 0 <= j < |rest|
      ensures rest[j].timestamp <= out[0].timestamp
    {
      assert rest[j] in multiset(rest);
      if rest[j] != s {
        assert rest[j] in multiset(out[1..]);
        var k :| 0 <= k < |out[1..]| && out[1..][k] == rest[j];
        assert out[k + 1] == rest[j];
      }
    }
  }

  /** One admissible listing of the rows (an insertion sort). */
  function SortNewestFirst(rows: seq<Scan>): (out: seq<Scan>)
    ensures IsListing(rows, out)
  {
    if |rows| == 0 then []
    else
      assert rows == [rows[0]] + rows[1..];
      InsertNewestFirst(rows[0], SortNewestFirst(rows[1..]))
  }

  /** getAll: the current listing of the table. */
  function GetAll(st: Store): (out: seq<Scan>)
    ensures IsListing(st.rows, out)
    ensures |out| == |st.rows|
  {
    var out := SortNewestFirst(st.rows);
    assert |multiset(out)| == |multiset(st.rows)|;
    out
  }

  /** The empty table lists as the empty sequence. */
  lemma ListingOfEmpty(out: seq<Scan>)
    requires IsListing(EmptyStore.rows, out)
    ensures out == []
  {
    assert |multiset(out)| == 0;
  }

  /** Distinct ids make every row occur exactly once in the table. */
  lemma {:induction false} DistinctIdsOccurOnce(rows: seq<Scan>, x: Scan)
    requires forall i, j :: 0 <= i < j < |rows| ==> rows[i].id != rows[j].id
    requires x in rows
    ensures multiset(rows)[x] == 1
  {
    assert rows == [rows[0]] + rows[1..];
    if rows[0] == x {
      assert x !in rows[1..] by {
        forall k | 0 <= k < |rows[1..]|
          ensures rows[1..][k] != x
        {
          assert rows[1..][k] == rows[k + 1];
          assert rows[0].id != rows[k + 1].id;
        }
      }
      assert multiset(rows[1..])[x] == 0;
    } else {
      DistinctIdsOccurOnce(rows[1..], x);
    }
  }

  /** A listing of a valid table holds each stored scan exactly once and nothing else. */
  lemma ListingHasEachOnce(st: Store, out: seq<Scan>)
    requires Valid(st)
    requires IsListing(st.rows, out)
    ensures |out| == |st.rows|
    ensures forall x :: x in st.rows ==> multiset(out)[x] == 1
    ensures forall x :: x in out <==> x in st.rows
  {
    assert |multiset(out)| == |multiset(st.rows)|;
    forall x | x in st.rows
      ensures multiset(out)[x] == 1
    {
      DistinctIdsOccurOnce(st.rows, x);
    }
    forall x
      ensures x in out <==> x in st.rows
    {
      assert x in out <==> x in multiset(out);
      assert x in st.rows <==> x in multiset(st.rows);
    }
  }

  /**
   * After a successful insert every listing is one longer, contains the old
   * rows plus one record carrying the inserted content and timestamp.
   */
  lemma ListingAfterInsert(st: Store, s: Scan, out: seq<Scan>, out': seq<Scan>)
    requires Insert(st, s).Success?
    requires IsListing(st.rows, out)
    requires IsListing(Insert(st, s).value.rows, out')
    ensures |out'| == |out| + 1
    ensures exists k :: 0 <= k < |out'| && out'[k].content == s.content && out'[k].timestamp == s.timestamp
    ensures multiset(out) <= multiset(out')
  {
    var rows' := Insert(st, s).value.rows;
    var added := rows'[|st.rows|];
    assert rows' == st.rows + [added];
    assert multiset(out') == multiset(out) + multiset{added};
    assert |multiset(out')| == |multiset(out)| + 1;
    assert added in multiset(out');
    assert added in out';
    var k :| 0 <= k < |out'| && out'[k] == added;
  }

  /** A scan strictly newer than everything stored comes first in every listing after its insert. */
  lemma NewestInsertListedFirst(st: Store, s: Scan, out': seq<Scan>)
    requires Insert(st, s).Success?
    requires forall i :: 0 <= i < |st.rows| ==> st.rows[i].timestamp < s.timestamp
    requires IsListing(Insert(st, s).value.rows, out')
    ensures |out'| > 0
    ensures out'[0].content == s.content && out'[0].timestamp == s.timestamp
  {
    var rows' := Insert(st, s).value.rows;
    var added := rows'[|st.rows|];
    assert rows' == st.rows + [added];
    assert added in multiset(out');
    var k :| 0 <= k < |out'| && out'[k] == added;
    var first := out'[0];
    assert first in multiset(rows');
  }

  /** With equal timestamps both orders are admissible: the query promises no tie-break. */
  lemma TiesUnordered(a: Scan, b: Scan)
    requires a.timestamp == b.timestamp
    ensures IsListing([a, b], [a, b]) && IsListing([a, b], [b, a])
  {
    assert multiset([b, a]) == multiset([a, b]);
  }
}
