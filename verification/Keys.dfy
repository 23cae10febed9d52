/** The columns of a definition as they are written, and the keys of the store: which
    rows of a table share a key, and which inserts stay. */
module Keys {
  import opened Ast
  import opened Bytes
  import opened Rows
  import opened ScanRange
  import opened Store
  import opened Analysis

  /** The elements of a row at the columns written with `key`, in their order. */
  function KeyElements(cols: seq<Column>, row: seq<int>): seq<int>
    requires |row| == |cols|
  {
    if cols == [] then []
    else if cols[0].props.key then [row[0]] + KeyElements(cols[1..], row[1..])
    else KeyElements(cols[1..], row[1..])
  }

  /** The other elements, in their order. */
  function OtherElements(cols: seq<Column>, row: seq<int>): seq<int>
    requires |row| == |cols|
  {
    if cols == [] then []
    else if cols[0].props.key then OtherElements(cols[1..], row[1..])
    else [row[0]] + OtherElements(cols[1..], row[1..])
  }

  function KeysIn(cols: seq<Column>): (n: nat)
    ensures n <= |cols|
  {
    if cols == [] then 0 else (if cols[0].props.key then 1 else 0) + KeysIn(cols[1..])
  }

  predicate AgreeOnKeys(cols: seq<Column>, row: seq<int>, row1: seq<int>)
    requires |row| == |row1| == |cols|
  {
    forall i :: 0 <= i < |cols| && cols[i].props.key ==> row[i] == row1[i]
  }

  lemma {:induction false} ColumnsSplit(cols: seq<Column>, row: seq<int>)
    requires |row| == |cols|
    ensures KeyCols(AttrsOf(cols), row) == KeyElements(cols, row)
    ensures ValueCols(AttrsOf(cols), row) == OtherElements(cols, row)
  {
    hide NameBytes;
    if cols != [] {
      ColumnsSplit(cols[1..], row[1..]);
      assert AttrsOf(cols)[1..] == AttrsOf(cols[1..]);
    }
  }

  lemma {:induction false} KeysCounted(cols: seq<Column>)
    ensures KeyCount(AttrsOf(cols)) == KeysIn(cols)
  {
    hide NameBytes;
    if cols != [] {
      KeysCounted(cols[1..]);
      assert AttrsOf(cols)[1..] == AttrsOf(cols[1..]);
    }
  }

  lemma {:induction false} SameKeys(cols: seq<Column>, row: seq<int>, row1: seq<int>)
    requires |row| == |row1| == |cols|
    ensures KeyElements(cols, row) == KeyElements(cols, row1) <==> AgreeOnKeys(cols, row, row1)
    ensures |KeyElements(cols, row)| == |KeyElements(cols, row1)|
  {
    if cols != [] {
      var k, k1 := KeyElements(cols, row), KeyElements(cols, row1);
      SameKeys(cols[1..], row[1..], row1[1..]);
      if cols[0].props.key {
        assert k[1..] == KeyElements(cols[1..], row[1..]) && k1[1..] == KeyElements(cols[1..], row1[1..]);
        assert k == [row[0]] + k[1..] && k1 == [row1[0]] + k1[1..];
      }
      assert AgreeOnKeys(cols, row, row1) <==>
             (cols[0].props.key ==> row[0] == row1[0]) && AgreeOnKeys(cols[1..], row[1..], row1[1..]) by {
        assert forall i :: 0 < i < |cols| ==> cols[i] == cols[1..][i - 1] && row[i] == row[1..][i - 1];
        assert forall i :: 0 < i < |cols| ==> row1[i] == row1[1..][i - 1];
      }
    }
  }

  /** What is stored for a row of the table `t`: under the characters of its name, a
      colon and the elements of the key columns, the other elements. */
  lemma StoredRecord(t: string, cols: seq<Column>, row: seq<int>)
    requires |row| == |cols| && forall i :: 0 <= i < |t| ==> t[i] as int < 256
    ensures var r := RecordOf(AttrsOf(cols), Insertion(NameBytes(t), row));
            && |r.key| == |t| + 1 + 8 * KeysIn(cols)
            && (forall i :: 0 <= i < |t| ==> r.key[i] == t[i] as int) && r.key[|t|] == ':' as int
            && r.key[|t| + 1..] == EncAll(KeyElements(cols, row))
            && r.value == EncAll(OtherElements(cols, row))
  {
    hide AttrsOf, KeyCols, ValueCols, EncAll, KeyCount, KeysIn;
    ColumnsSplit(cols, row);
    KeysCounted(cols);
  }

  ghost predicate Insertable(t: bytes, cols: seq<Column>, row: seq<int>) {
    Scannable(t) && |row| == |cols| && AllInt64(row)
  }

  /** Two rows have the same key exactly if they go to the same table and agree in its
      key columns. */
  lemma CollideExactly(t: bytes, cols: seq<Column>, row: seq<int>, u: bytes, cols1: seq<Column>, row1: seq<int>)
    requires Insertable(t, cols, row) && Insertable(u, cols1, row1) && (t == u ==> cols == cols1)
    ensures RecordOf(AttrsOf(cols), Insertion(t, row)).key == RecordOf(AttrsOf(cols1), Insertion(u, row1)).key <==>
            t == u && AgreeOnKeys(cols, row, row1)
  {
    hide AttrsOf, KeyElements, KeyCols, AllInt64, EncAll, AgreeOnKeys;
    ColumnsSplit(cols, row);
    ColumnsSplit(cols1, row1);
    SplitInt64(AttrsOf(cols), row);
    SplitInt64(AttrsOf(cols1), row1);
    var k, k1 := KeyElements(cols, row), KeyElements(cols1, row1);
    if KeyOf(t, k) == KeyOf(u, k1) { KeyInjective(t, k, u, k1); }
    if t == u { SameKeys(cols, row, row1); }
  }

  // Histories.

  /** The tables as they are defined. */
  ghost predicate Defines(cat: Catalogue, defs: map<bytes, seq<Column>>) {
    cat.Keys == defs.Keys && forall t :: t in defs ==> cat[t] == AttrsOf(defs[t])
  }

  /** The record of a row. */
  ghost function RecordIn(cat: Catalogue, op: Insertion): Record
    requires ValidInsertion(cat, op)
  {
    RecordOf(cat[op.table], op)
  }

  /** Two inserts into the same table that agree in its key columns. */
  ghost predicate Clash(defs: map<bytes, seq<Column>>, op: Insertion, op1: Insertion) {
    && op.table == op1.table && op.table in defs && |op.row| == |op1.row| == |defs[op.table]|
    && AgreeOnKeys(defs[op.table], op.row, op1.row)
  }

  lemma ClashExactly(cat: Catalogue, defs: map<bytes, seq<Column>>, op: Insertion, op1: Insertion)
    requires Defines(cat, defs) && ValidInsertion(cat, op) && ValidInsertion(cat, op1)
    ensures RecordIn(cat, op).key == RecordIn(cat, op1).key <==> Clash(defs, op, op1)
  {
    hide AttrsOf, AllInt64, AgreeOnKeys, RowKey, RowValue, Scannable;
    CollideExactly(op.table, defs[op.table], op.row, op1.table, defs[op1.table], op1.row);
  }

  /** A record belongs to one insert only. */
  lemma RecordOnce(cat: Catalogue, op: Insertion, op1: Insertion)
    requires ValidInsertion(cat, op) && ValidInsertion(cat, op1)
    ensures RecordIn(cat, op) == RecordIn(cat, op1) <==> op == op1
  {
    hide KeyCols, ValueCols, EncAll, DecodeRecord, KeyCount;
    if RecordIn(cat, op) == RecordIn(cat, op1) {
      var s, s1 := Schema(op.table, cat[op.table]), Schema(op1.table, cat[op1.table]);
      SplitInt64(s.attrs, op.row);
      SplitInt64(s1.attrs, op1.row);
      KeyInjective(op.table, KeyCols(s.attrs, op.row), op1.table, KeyCols(s1.attrs, op1.row));
      RecordRoundTrip(s, op.row);
      RecordRoundTrip(s1, op1.row);
    }
  }

  ghost predicate ClashesBefore(defs: map<bytes, seq<Column>>, ops: seq<Insertion>, n: nat, op: Insertion)
    requires n <= |ops|
  {
    exists j :: 0 <= j < n && Clash(defs, ops[j], op)
  }

  lemma {:induction false} KeyTakenExactly(
      cat: Catalogue, defs: map<bytes, seq<Column>>, ops: seq<Insertion>, op: Insertion)
    requires Defines(cat, defs) && ValidHistory(cat, ops) && ValidInsertion(cat, op)
    ensures Sorted(StoreAfter(cat, ops))
    ensures HasKey(StoreAfter(cat, ops), RecordIn(cat, op).key) <==> ClashesBefore(defs, ops, |ops|, op)
  {
    hide RecordIn, Clash, ValidInsertion, Defines, InsertRecord;
    if ops != [] {
      var last, before := ops[|ops| - 1], ops[..|ops| - 1];
      KeyTakenExactly(cat, defs, before, op);
      KeyTakenExactly(cat, defs, before, last);
      StoreGrows(cat, ops);
      ClashExactly(cat, defs, last, op);
      assert ClashesBefore(defs, ops, |ops|, op) <==>
             ClashesBefore(defs, before, |before|, op) || Clash(defs, last, op) by {
        assert forall j :: 0 <= j < |before| ==> ops[j] == before[j];
      }
      assert HasKey(StoreAfter(cat, ops), RecordIn(cat, op).key) <==>
             HasKey(StoreAfter(cat, before), RecordIn(cat, op).key) || RecordIn(cat, last).key == RecordIn(cat, op).key;
    }
  }

  /** The store after one more insert. */
  lemma StoreGrows(cat: Catalogue, ops: seq<Insertion>)
    requires ops != [] && ValidHistory(cat, ops) && Sorted(StoreAfter(cat, ops[..|ops| - 1]))
    ensures ValidInsertion(cat, ops[|ops| - 1])
    ensures var rs, r := StoreAfter(cat, ops[..|ops| - 1]), RecordIn(cat, ops[|ops| - 1]);
            && Sorted(StoreAfter(cat, ops))
            && (forall x :: x in StoreAfter(cat, ops) <==> x in rs || (x == r && !HasKey(rs, r.key)))
            && (forall k :: HasKey(StoreAfter(cat, ops), k) <==> HasKey(rs, k) || k == r.key)
  {
    hide ValidInsertion, InsertRecord, Sorted, RecordOf;
    var rs, r := StoreAfter(cat, ops[..|ops| - 1]), RecordIn(cat, ops[|ops| - 1]);
    InsertContents(rs, r);
    KeysAfter(rs, r, StoreAfter(cat, ops));
  }

  lemma KeysAfter(rs: seq<Record>, r: Record, after: seq<Record>)
    requires forall x :: x in after <==> x in rs || (x == r && !HasKey(rs, r.key))
    ensures forall k :: HasKey(after, k) <==> HasKey(rs, k) || k == r.key
  {
    forall k ensures HasKey(after, k) <==> HasKey(rs, k) || k == r.key {
      HasKeyIn(rs, k);
      HasKeyIn(after, k);
      HasKeyIn(rs, r.key);
    }
  }

  lemma HasKeyIn(rs: seq<Record>, k: bytes)
    ensures HasKey(rs, k) <==> exists x :: x in rs && x.key == k
  {
    if HasKey(rs, k) {
      var i :| 0 <= i < |rs| && rs[i].key == k;
      assert rs[i] in rs;
    }
  }

  lemma EmptyStore(cat: Catalogue)
    ensures StoreAfter(cat, []) == []
  {
  }

  lemma SameBefore(defs: map<bytes, seq<Column>>, ops: seq<Insertion>, i: nat, op: Insertion)
    requires ops != [] && i < |ops|
    ensures ClashesBefore(defs, ops, i, op) <==> ClashesBefore(defs, ops[..|ops| - 1], i, op)
  {
    hide Clash;
    assert forall j :: 0 <= j < i ==> ops[j] == ops[..|ops| - 1][j];
  }

  /** The store holds the record of a row exactly if some insert of that row was the
      first into its table with these elements in the key columns. */
  lemma {:induction false} FirstStays(cat: Catalogue, defs: map<bytes, seq<Column>>, ops: seq<Insertion>, op: Insertion)
    requires Defines(cat, defs) && ValidHistory(cat, ops) && ValidInsertion(cat, op)
    ensures RecordIn(cat, op) in StoreAfter(cat, ops) <==>
            exists i :: 0 <= i < |ops| && ops[i] == op && !ClashesBefore(defs, ops, i, op)
  {
    hide RecordIn, ClashesBefore, ValidInsertion, Defines, StoreAfter, HasKey;
    if ops == [] {
      EmptyStore(cat);
    } else {
      var last, before := ops[|ops| - 1], ops[..|ops| - 1];
      FirstStays(cat, defs, before, op);
      KeyTakenExactly(cat, defs, before, op);
      StoreGrows(cat, ops);
      RecordOnce(cat, last, op);
      forall i | 0 <= i <= |before|
        ensures ClashesBefore(defs, ops, i, op) <==> ClashesBefore(defs, before, i, op)
      {
        SameBefore(defs, ops, i, op);
      }
    }
  }
}
