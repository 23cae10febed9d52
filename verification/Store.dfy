/** One ordered byte store holds the rows of all tables. Inserts and scans of it
    behave like a plain map from table and key columns to rows. */
module Store {
  import opened Bytes
  import opened Rows
  import opened ScanRange

  datatype Record = Record(key: bytes, value: bytes)

  ghost predicate Sorted(rs: seq<Record>) {
    forall i, j :: 0 <= i < j < |rs| ==> Less(rs[i].key, rs[j].key)
  }

  ghost predicate HasKey(rs: seq<Record>, key: bytes) {
    exists i :: 0 <= i < |rs| && rs[i].key == key
  }

  /** Insertion in key order; a key that is already there is rejected and
      nothing changes. */
  function InsertRecord(rs: seq<Record>, r: Record): seq<Record> {
    if rs == [] || Less(r.key, rs[0].key) then [r] + rs
    else if r.key == rs[0].key then rs
    else [rs[0]] + InsertRecord(rs[1..], r)
  }

  lemma {:induction false} InsertContents(rs: seq<Record>, r: Record)
    requires Sorted(rs)
    ensures forall x :: x in InsertRecord(rs, r) <==> x in rs || (x == r && !HasKey(rs, r.key))
    ensures Sorted(InsertRecord(rs, r))
  {
    if rs != [] {
      var h, t := rs[0], rs[1..];
      assert rs == [h] + t;
      LessTotal(r.key, h.key);
      if Less(r.key, h.key) {
        assert !HasKey(rs, r.key) && Sorted([r] + rs) by {
          forall j | 0 <= j < |rs|
            ensures Less(r.key, rs[j].key) && rs[j].key != r.key
          {
            if j > 0 { LessTrans(r.key, h.key, rs[j].key); }
            LessTotal(r.key, rs[j].key);
          }
        }
      } else if r.key == h.key {
        assert rs[0].key == r.key;
      } else {
        InsertContents(t, r);
        var t1 := InsertRecord(t, r);
        assert HasKey(rs, r.key) <==> HasKey(t, r.key) by {
          if HasKey(t, r.key) {
            var i :| 0 <= i < |t| && t[i].key == r.key;
            assert rs[i + 1].key == r.key;
          }
          if HasKey(rs, r.key) {
            var i :| 0 <= i < |rs| && rs[i].key == r.key;
            assert t[i - 1].key == r.key;
          }
        }
        assert Sorted([h] + t1) by {
          forall j | 0 <= j < |t1|
            ensures Less(h.key, t1[j].key)
          {
            assert t1[j] in t1;
            if t1[j] in t { var i :| 0 <= i < |t| && t[i] == t1[j]; assert rs[i + 1] == t1[j]; }
          }
        }
      }
    }
  }

  /** The records a cursor over the range of table `name` goes through, in
      order. */
  function Visited(rs: seq<Record>, name: bytes): seq<Record>
    requires Scannable(name)
  {
    if rs == [] then []
    else (if InRange(name, rs[0].key) then [rs[0]] else []) + Visited(rs[1..], name)
  }

  lemma {:induction false} VisitedContents(rs: seq<Record>, name: bytes)
    requires Scannable(name)
    ensures forall x :: x in Visited(rs, name) <==> x in rs && InRange(name, x.key)
  {
    if rs != [] {
      VisitedContents(rs[1..], name);
      assert rs == [rs[0]] + rs[1..];
    }
  }

  lemma {:induction false} VisitedSorted(rs: seq<Record>, name: bytes)
    requires Scannable(name) && Sorted(rs)
    ensures Sorted(Visited(rs, name))
  {
    if rs != [] {
      var t := Visited(rs[1..], name);
      VisitedSorted(rs[1..], name);
      VisitedContents(rs[1..], name);
      forall j | 0 <= j < |t|
        ensures Less(rs[0].key, t[j].key)
      {
        assert t[j] in rs[1..];
        var i :| 0 <= i < |rs[1..]| && rs[1..][i] == t[j];
        assert rs[i + 1] == t[j];
      }
    }
  }

  ghost predicate AllDecodable(s: Schema, rs: seq<Record>) {
    forall i :: 0 <= i < |rs| ==> Decodable(s, rs[i].key, rs[i].value)
  }

  ghost function DecodeAll(s: Schema, rs: seq<Record>): (rows: seq<seq<int>>)
    requires AllDecodable(s, rs)
    ensures |rows| == |rs|
    ensures forall i :: 0 <= i < |rs| ==> rows[i] == DecodeRecord(s, rs[i].key, rs[i].value)
  {
    if rs == [] then [] else [DecodeRecord(s, rs[0].key, rs[0].value)] + DecodeAll(s, rs[1..])
  }

  // Histories of inserts over a fixed catalogue of tables.

  type Catalogue = map<bytes, seq<Attr>>

  datatype Insertion = Insertion(table: bytes, row: seq<int>)

  ghost predicate ValidInsertion(cat: Catalogue, op: Insertion) {
    && op.table in cat && Scannable(op.table)
    && |op.row| == |cat[op.table]| && AllInt64(op.row)
  }

  ghost predicate ValidHistory(cat: Catalogue, ops: seq<Insertion>) {
    forall i :: 0 <= i < |ops| ==> ValidInsertion(cat, ops[i])
  }

  function RecordOf(attrs: seq<Attr>, op: Insertion): Record
    requires |op.row| == |attrs|
  {
    var s := Schema(op.table, attrs);
    Record(RowKey(s, op.row), RowValue(s, op.row))
  }

  /** The byte store after a history. */
  ghost function StoreAfter(cat: Catalogue, ops: seq<Insertion>): seq<Record>
    requires ValidHistory(cat, ops)
  {
    if ops == [] then []
    else
      var op := ops[|ops| - 1];
      InsertRecord(StoreAfter(cat, ops[..|ops| - 1]), RecordOf(cat[op.table], op))
  }

  /** The relational view: table and key columns determine a row, and the first
      insertion of a key wins. */
  ghost function RowsAfter(cat: Catalogue, ops: seq<Insertion>): map<(bytes, seq<int>), seq<int>>
    requires ValidHistory(cat, ops)
  {
    if ops == [] then map[]
    else
      var op := ops[|ops| - 1];
      var before := RowsAfter(cat, ops[..|ops| - 1]);
      var id := (op.table, KeyCols(cat[op.table], op.row));
      if id in before then before else before[id := op.row]
  }

  ghost predicate Stands(cat: Catalogue, rows: map<(bytes, seq<int>), seq<int>>, id: (bytes, seq<int>)) {
    && id in rows && ValidInsertion(cat, Insertion(id.0, rows[id]))
    && KeyCols(cat[id.0], rows[id]) == id.1
  }

  ghost predicate HasRecord(cat: Catalogue, rs: seq<Record>, t: bytes, row: seq<int>)
    requires ValidInsertion(cat, Insertion(t, row))
  {
    RecordOf(cat[t], Insertion(t, row)) in rs
  }

  /** The store holds one record for each row of the relational view and
      nothing else. */
  ghost predicate Refines(cat: Catalogue, rs: seq<Record>, rows: map<(bytes, seq<int>), seq<int>>) {
    && Sorted(rs)
    && (forall id :: id in rows ==> Stands(cat, rows, id) && HasRecord(cat, rs, id.0, rows[id]))
    && (forall r :: r in rs ==>
          exists id :: Stands(cat, rows, id) && r == RecordOf(cat[id.0], Insertion(id.0, rows[id])))
  }

  /** A key is taken in the store exactly when it is taken in the view. */
  lemma KeyTaken(cat: Catalogue, rs: seq<Record>, rows: map<(bytes, seq<int>), seq<int>>, op: Insertion)
    requires Refines(cat, rs, rows) && ValidInsertion(cat, op)
    ensures HasKey(rs, RecordOf(cat[op.table], op).key) <==> (op.table, KeyCols(cat[op.table], op.row)) in rows
  {
    var r := RecordOf(cat[op.table], op);
    var id := (op.table, KeyCols(cat[op.table], op.row));
    if HasKey(rs, r.key) {
      var i :| 0 <= i < |rs| && rs[i].key == r.key;
      assert rs[i] in rs;
      var id1 :| Stands(cat, rows, id1) && rs[i] == RecordOf(cat[id1.0], Insertion(id1.0, rows[id1]));
      SplitInt64(cat[op.table], op.row);
      SplitInt64(cat[id1.0], rows[id1]);
      KeyInjective(op.table, id.1, id1.0, id1.1);
    }
    if id in rows {
      assert Stands(cat, rows, id) && HasRecord(cat, rs, id.0, rows[id]);
      var r1 := RecordOf(cat[id.0], Insertion(id.0, rows[id]));
      var i :| 0 <= i < |rs| && rs[i] == r1;
    }
  }

  /** An insertion of a new key adds its record and its row. */
  lemma FreshRefines(cat: Catalogue, rs: seq<Record>, rows: map<(bytes, seq<int>), seq<int>>, op: Insertion)
    requires Refines(cat, rs, rows) && ValidInsertion(cat, op)
    requires (op.table, KeyCols(cat[op.table], op.row)) !in rows
    ensures var id := (op.table, KeyCols(cat[op.table], op.row));
            Refines(cat, InsertRecord(rs, RecordOf(cat[op.table], op)), rows[id := op.row])
  {
    hide KeyCols, InsertRecord, RecordOf, Sorted, HasKey;
    var r := RecordOf(cat[op.table], op);
    var id := (op.table, KeyCols(cat[op.table], op.row));
    KeyTaken(cat, rs, rows, op);
    InsertContents(rs, r);
    var rows1, rs1 := rows[id := op.row], InsertRecord(rs, r);
    assert Stands(cat, rows1, id);
    forall id1 | id1 in rows1
      ensures Stands(cat, rows1, id1) && HasRecord(cat, rs1, id1.0, rows1[id1])
    {
      if id1 != id { assert Stands(cat, rows, id1) && HasRecord(cat, rs, id1.0, rows[id1]); }
    }
    forall x | x in rs1
      ensures exists id1 :: Stands(cat, rows1, id1) && x == RecordOf(cat[id1.0], Insertion(id1.0, rows1[id1]))
    {
      if x in rs {
        var id1 :| Stands(cat, rows, id1) && x == RecordOf(cat[id1.0], Insertion(id1.0, rows[id1]));
        assert Stands(cat, rows1, id1);
      } else {
        assert Stands(cat, rows1, id);
      }
    }
  }

  /** One insertion keeps the refinement. */
  lemma InsertRefines(cat: Catalogue, rs: seq<Record>, rows: map<(bytes, seq<int>), seq<int>>, op: Insertion)
    requires Refines(cat, rs, rows) && ValidInsertion(cat, op)
    ensures var id := (op.table, KeyCols(cat[op.table], op.row));
            Refines(cat, InsertRecord(rs, RecordOf(cat[op.table], op)), if id in rows then rows else rows[id := op.row])
  {
    hide KeyCols, InsertRecord, RecordOf, Sorted, HasKey;
    if (op.table, KeyCols(cat[op.table], op.row)) in rows {
      KeyTaken(cat, rs, rows, op);
      InsertContents(rs, RecordOf(cat[op.table], op));
    } else {
      FreshRefines(cat, rs, rows, op);
    }
  }

  lemma {:induction false} HistoryRefines(cat: Catalogue, ops: seq<Insertion>)
    requires ValidHistory(cat, ops)
    ensures Refines(cat, StoreAfter(cat, ops), RowsAfter(cat, ops))
  {
    if ops != [] {
      HistoryRefines(cat, ops[..|ops| - 1]);
      InsertRefines(cat, StoreAfter(cat, ops[..|ops| - 1]), RowsAfter(cat, ops[..|ops| - 1]), ops[|ops| - 1]);
    }
  }

  /** No other table of the catalogue can stray into the scan range of `t`. */
  ghost predicate Undisturbed(cat: Catalogue, t: bytes)
    requires t != []
  {
    forall u :: u in cat && u != t ==> COLON !in u && !CanStray(t, u)
  }

  /** With key columns the payload's first byte varies, so a table strays as soon
      as it can with some payload. */
  lemma StrayNeedsCanStray(t: bytes, u: bytes, payload: bytes)
    requires t != [] && u != t && Strays(t, u, payload)
    ensures CanStray(t, u)
  {
  }

  /** The records visited by a scan of `t` are exactly the records of its rows. */
  lemma VisitedRows(cat: Catalogue, ops: seq<Insertion>, t: bytes, r: Record)
    requires ValidHistory(cat, ops) && t in cat && Scannable(t) && Undisturbed(cat, t)
    ensures r in Visited(StoreAfter(cat, ops), t) <==>
            exists id :: Stands(cat, RowsAfter(cat, ops), id) && id.0 == t
                         && r == RecordOf(cat[t], Insertion(t, RowsAfter(cat, ops)[id]))
  {
    hide EncAll, KeyCols, ValueCols, InRange, AllInt64;
    var rs, rows := StoreAfter(cat, ops), RowsAfter(cat, ops);
    HistoryRefines(cat, ops);
    VisitedContents(rs, t);
    if r in Visited(rs, t) {
      var id :| Stands(cat, rows, id) && r == RecordOf(cat[id.0], Insertion(id.0, rows[id]));
      RangeExact(t, id.0, EncAll(id.1));
      if id.0 != t { StrayNeedsCanStray(t, id.0, EncAll(id.1)); }
    }
    if id :| Stands(cat, rows, id) && id.0 == t && r == RecordOf(cat[t], Insertion(t, rows[id])) {
      assert HasRecord(cat, rs, id.0, rows[id]);
      RangeComplete(t, id.1);
    }
  }

  lemma VisitedDecodable(cat: Catalogue, ops: seq<Insertion>, t: bytes, i: nat)
    requires ValidHistory(cat, ops) && t in cat && Scannable(t) && Undisturbed(cat, t)
    requires i < |Visited(StoreAfter(cat, ops), t)|
    ensures var r := Visited(StoreAfter(cat, ops), t)[i];
            var s := Schema(t, cat[t]);
            && Decodable(s, r.key, r.value)
            && var row := DecodeRecord(s, r.key, r.value);
               && (t, KeyCols(cat[t], row)) in RowsAfter(cat, ops)
               && RowsAfter(cat, ops)[(t, KeyCols(cat[t], row))] == row
               && r == RecordOf(cat[t], Insertion(t, row))
  {
    var rows := RowsAfter(cat, ops);
    var r := Visited(StoreAfter(cat, ops), t)[i];
    VisitedRows(cat, ops, t, r);
    var id :| Stands(cat, rows, id) && id.0 == t && r == RecordOf(cat[t], Insertion(t, rows[id]));
    RecordRoundTrip(Schema(t, cat[t]), rows[id]);
    assert id == (t, id.1);
  }

  /** The rows a scan of `t` produces. */
  ghost function ScanAfter(cat: Catalogue, ops: seq<Insertion>, t: bytes): seq<seq<int>>
    requires ValidHistory(cat, ops) && t in cat && Scannable(t) && Undisturbed(cat, t)
  {
    var rs := Visited(StoreAfter(cat, ops), t);
    assert AllDecodable(Schema(t, cat[t]), rs) by {
      forall i | 0 <= i < |rs|
        ensures Decodable(Schema(t, cat[t]), rs[i].key, rs[i].value)
      {
        VisitedDecodable(cat, ops, t, i);
      }
    }
    DecodeAll(Schema(t, cat[t]), rs)
  }

  /** After any history of inserts into any tables, a scan of `t` produces exactly
      the rows of `t`, each once. */
  lemma ScanIsTable(cat: Catalogue, ops: seq<Insertion>, t: bytes)
    requires ValidHistory(cat, ops) && t in cat && Scannable(t) && Undisturbed(cat, t)
    ensures forall row :: row in ScanAfter(cat, ops, t) <==>
              exists id :: id in RowsAfter(cat, ops) && id.0 == t && RowsAfter(cat, ops)[id] == row
    ensures forall i, j :: 0 <= i < j < |ScanAfter(cat, ops, t)| ==>
              ScanAfter(cat, ops, t)[i] != ScanAfter(cat, ops, t)[j]
  {
    hide EncAll, KeyCols, ValueCols, InRange, AllInt64, Decodable, DecodeRecord;
    var rows, scan := RowsAfter(cat, ops), ScanAfter(cat, ops, t);
    var rs := Visited(StoreAfter(cat, ops), t);
    HistoryRefines(cat, ops);
    forall row | row in scan
      ensures exists id :: id in rows && id.0 == t && rows[id] == row
    {
      var i :| 0 <= i < |scan| && scan[i] == row;
      VisitedDecodable(cat, ops, t, i);
      assert (t, KeyCols(cat[t], row)).0 == t;
    }
    forall id | id in rows && id.0 == t
      ensures rows[id] in scan
    {
      assert Stands(cat, rows, id);
      var r := RecordOf(cat[t], Insertion(t, rows[id]));
      VisitedRows(cat, ops, t, r);
      var i :| 0 <= i < |rs| && rs[i] == r;
      RecordRoundTrip(Schema(t, cat[t]), rows[id]);
      assert scan[i] == rows[id];
    }
    VisitedSorted(StoreAfter(cat, ops), t);
    forall i, j | 0 <= i < j < |scan|
      ensures scan[i] != scan[j]
    {
      VisitedDecodable(cat, ops, t, i); VisitedDecodable(cat, ops, t, j);
      LessTotal(rs[i].key, rs[j].key);
    }
  }

  /** The condition on names is needed: if `u` can stray, one insert into `u` alone
      makes a scan of the empty table `t` visit a record. */
  lemma StrayBreaksScan(cat: Catalogue, t: bytes, u: bytes) returns (ops: seq<Insertion>)
    requires t in cat && Scannable(t) && u in cat && Scannable(u) && u != t && CanStray(t, u)
    ensures ValidHistory(cat, ops)
    ensures forall id :: id in RowsAfter(cat, ops) ==> id.0 != t
    ensures Visited(StoreAfter(cat, ops), t) != []
  {
    var row := seq(|cat[u]|, _ => 0);
    var op := Insertion(u, row);
    ops := [op];
    assert ops[..0] == [];
    ZeroKeys(cat[u], row);
    var payload := EncAll(KeyCols(cat[u], row));
    RangeExact(t, u, payload);
    var r := RecordOf(cat[u], op);
    assert StoreAfter(cat, ops) == [r];
    VisitedContents([r], t);
    assert r in Visited([r], t);
  }

  lemma {:induction false} ZeroKeys(attrs: seq<Attr>, row: seq<int>)
    requires |row| == |attrs| && forall i :: 0 <= i < |row| ==> row[i] == 0
    ensures var payload := EncAll(KeyCols(attrs, row)); payload == [] || payload[0] == 0
  {
    if attrs != [] {
      ZeroKeys(attrs[1..], row[1..]);
      if attrs[0].isKey {
        var ks := KeyCols(attrs, row);
        assert EncAll(ks) == Enc64(0) + EncAll(ks[1..]);
      } else {
        assert KeyCols(attrs, row) == KeyCols(attrs[1..], row[1..]);
      }
    }
  }

  /** A scan of `t` visits records of `t` only. */
  ghost predicate VisitsOwn(cat: Catalogue, ops: seq<Insertion>, t: bytes)
    requires ValidHistory(cat, ops) && t in cat && Scannable(t)
  {
    forall r :: r in Visited(StoreAfter(cat, ops), t) ==>
      exists id :: Stands(cat, RowsAfter(cat, ops), id) && id.0 == t
          && r == RecordOf(cat[t], Insertion(t, RowsAfter(cat, ops)[id]))
  }

  /** Scans of a table stay inside it after every history exactly when no other
      name of the catalogue can stray. */
  lemma VisitsOwnExactly(cat: Catalogue, t: bytes)
    requires t in cat && Scannable(t) && forall u :: u in cat ==> Scannable(u)
    ensures (forall ops :: ValidHistory(cat, ops) ==> VisitsOwn(cat, ops, t)) <==> Undisturbed(cat, t)
  {
    hide Visited, CanStray, StoreAfter, RowsAfter, ValidHistory, KeyCols;
    if Undisturbed(cat, t) {
      forall ops | ValidHistory(cat, ops) ensures VisitsOwn(cat, ops, t) {
        forall r | r in Visited(StoreAfter(cat, ops), t)
          ensures exists id :: Stands(cat, RowsAfter(cat, ops), id) && id.0 == t
                               && r == RecordOf(cat[t], Insertion(t, RowsAfter(cat, ops)[id]))
        {
          VisitedRows(cat, ops, t, r);
        }
      }
    } else {
      var u :| u in cat && u != t && CanStray(t, u);
      var ops := StrayBreaksScan(cat, t, u);
      assert !VisitsOwn(cat, ops, t) by {
        var r := Visited(StoreAfter(cat, ops), t)[0];
        assert r in Visited(StoreAfter(cat, ops), t);
        NoneStand(cat, ops, t);
      }
    }
  }

  lemma NoneStand(cat: Catalogue, ops: seq<Insertion>, t: bytes)
    requires ValidHistory(cat, ops) && forall id :: id in RowsAfter(cat, ops) ==> id.0 != t
    ensures forall id :: Stands(cat, RowsAfter(cat, ops), id) ==> id.0 != t
  {
  }
}
