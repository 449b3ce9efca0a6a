/**
 * The durable store of handler/Handler.go: two append-only SQLite tables,
 * `raw` and `pollutant`, each row `(id, ts, data, sent)`. The resend scan
 * selects the unsent rows of a time range and, on commit, marks them sent.
 */
module Store {
  import opened Basics

  /** The two measurement classes, one table each. */
  datatype Class = Raw | Pollutant

  /** One row: `id integer primary key, ts timestamp, data json, sent bool`. */
  datatype Row = Row(id: int, ts: Int64, data: Bytes, sent: bool)

  type Table = seq<Row>

  /** One store file. */
  datatype Store = Store(raw: Table, pollutant: Table)

  function TableOf(s: Store, c: Class): Table {
    match c
    case Raw => s.raw
    case Pollutant => s.pollutant
  }

  function WithTable(s: Store, c: Class, t: Table): (r: Store)
    ensures TableOf(r, c) == t
    ensures forall d :: d != c ==> TableOf(r, d) == TableOf(s, d)
  {
    match c
    case Raw => s.(raw := t)
    case Pollutant => s.(pollutant := t)
  }

  /**
   * Rows are never deleted, so SQLite hands out the rowids 1, 2, 3, ... in
   * insertion order: row `i` of a table has id `i + 1`.
   */
  ghost predicate WellFormed(t: Table) {
    forall i :: 0 <= i < |t| ==> t[i].id == i + 1
  }

  ghost predicate WellFormedStore(s: Store) {
    WellFormed(s.raw) && WellFormed(s.pollutant)
  }

  /** `insert into <table>(ts,data,sent) values (?,?,?)`. */
  function Append(t: Table, ts: Int64, data: Bytes, sent: bool): (r: Table)
    requires WellFormed(t)
    ensures WellFormed(r)
    ensures |r| == |t| + 1 && r[..|t|] == t
    ensures r[|t|].ts == ts && r[|t|].data == data && r[|t|].sent == sent
  {
    t + [Row(|t| + 1, ts, data, sent)]
  }

  /** The row matches `where sent = false and ts between start and end` (both ends included). */
  predicate Selected(r: Row, start: int, end: int) {
    !r.sent && start <= r.ts <= end
  }

  /** The rows the resend query returns: the selected rows, in store order. */
  function Pending(t: Table, start: int, end: int): (p: Table)
    ensures |p| <= |t|
    ensures forall r :: r in p ==> r in t && Selected(r, start, end)
    ensures forall i :: 0 <= i < |t| && Selected(t[i], start, end) ==> t[i] in p
  {
    if t == [] then []
    else
      var rest := Pending(t[1..], start, end);
      assert forall i :: 1 <= i < |t| ==> t[i] == t[1..][i - 1];
      if Selected(t[0], start, end) then [t[0]] + rest else rest
  }

  /** In a well-formed table the pending rows come back in increasing id order, each once. */
  lemma {:induction false} PendingInStoreOrder(t: Table, start: int, end: int, base: int)
    requires forall i :: 0 <= i < |t| ==> t[i].id == base + i
    ensures forall i, j :: 0 <= i < j < |Pending(t, start, end)| ==>
      Pending(t, start, end)[i].id < Pending(t, start, end)[j].id
    ensures forall r :: r in Pending(t, start, end) ==> base <= r.id < base + |t|
  {
    if t != [] {
      var rest := Pending(t[1..], start, end);
      PendingInStoreOrder(t[1..], start, end, base + 1);
      assert forall i :: 0 <= i < |t[1..]| ==> t[1..][i] == t[i + 1];
    }
  }

  /** The table after a committed resend of `[start, end]`: every selected row is marked sent. */
  function Acknowledge(t: Table, start: int, end: int): (r: Table)
    ensures |r| == |t|
    ensures forall i :: 0 <= i < |t| ==>
      r[i] == (if Selected(t[i], start, end) then t[i].(sent := true) else t[i])
  {
    seq(|t|, i requires 0 <= i < |t| => if Selected(t[i], start, end) then t[i].(sent := true) else t[i])
  }

  /** A table none of whose rows is selected has nothing pending. */
  lemma {:induction false} NothingSelectedNothingPending(t: Table, start: int, end: int)
    requires forall i :: 0 <= i < |t| ==> !Selected(t[i], start, end)
    ensures Pending(t, start, end) == []
  {
    if t != [] {
      assert forall i :: 0 <= i < |t[1..]| ==> t[1..][i] == t[i + 1];
      NothingSelectedNothingPending(t[1..], start, end);
    }
  }

  /** After the commit nothing in the range is left to resend. */
  lemma AcknowledgeLeavesNothingPending(t: Table, start: int, end: int)
    ensures Pending(Acknowledge(t, start, end), start, end) == []
  {
    NothingSelectedNothingPending(Acknowledge(t, start, end), start, end);
  }

  /** A second commit of the same range changes nothing more. */
  lemma AcknowledgeIdempotent(t: Table, start: int, end: int)
    ensures Acknowledge(Acknowledge(t, start, end), start, end) == Acknowledge(t, start, end)
  {
  }

  /** `sent` only ever goes from false to true, and id, ts and data never change. */
  lemma AcknowledgeOnlyRaisesFlags(t: Table, start: int, end: int)
    ensures forall i :: 0 <= i < |t| ==>
      var r := Acknowledge(t, start, end)[i];
      r.id == t[i].id && r.ts == t[i].ts && r.data == t[i].data && (t[i].sent ==> r.sent)
    ensures WellFormed(t) ==> WellFormed(Acknowledge(t, start, end))
  {
  }

  function Ids(rows: Table): (ids: seq<int>)
    ensures |ids| == |rows| && forall i :: 0 <= i < |rows| ==> ids[i] == rows[i].id
  {
    seq(|rows|, i requires 0 <= i < |rows| => rows[i].id)
  }

  /** Commit of the buffered `update <table> set sent = true where id = ?` statements. */
  function ApplyUpdates(t: Table, ids: seq<int>): (r: Table)
    ensures |r| == |t|
    ensures forall i :: 0 <= i < |t| ==> r[i] == (if t[i].id in ids then t[i].(sent := true) else t[i])
  {
    seq(|t|, i requires 0 <= i < |t| => if t[i].id in ids then t[i].(sent := true) else t[i])
  }

  /**
   * Applying the buffered updates for the ids the scan returned is the same as
   * marking every selected row: ids are unique, so each update hits exactly
   * the row it was read from.
   */
  lemma CommitMatchesAcknowledge(t: Table, start: int, end: int)
    requires WellFormed(t)
    ensures ApplyUpdates(t, Ids(Pending(t, start, end))) == Acknowledge(t, start, end)
  {
    var p := Pending(t, start, end);
    var ids := Ids(p);
    forall i | 0 <= i < |t|
      ensures (t[i].id in ids) == Selected(t[i], start, end)
    {
      if Selected(t[i], start, end) {
        var k :| 0 <= k < |p| && p[k] == t[i];
        assert ids[k] == t[i].id;
      }
      if t[i].id in ids {
        var k :| 0 <= k < |ids| && ids[k] == t[i].id;
        assert p[k] in t;
        var j :| 0 <= j < |t| && t[j] == p[k];
        assert j == i;
      }
    }
  }
}
