/** The insert and scan code as it runs: byte copies between stack buffers with
    running offsets, and a cursor over the ordered store. */
module Engine {
  import opened Bytes
  import opened Ast
  import opened Rows
  import opened Columns
  import opened ScanRange
  import opened Store

  // Integer rows as columns of eight bytes.

  function KeyFlags(attrs: seq<Attr>): (r: seq<bool>)
    ensures |r| == |attrs|
  {
    if attrs == [] then [] else [attrs[0].isKey] + KeyFlags(attrs[1..])
  }

  function IntCols(row: seq<int>): (r: seq<bytes>)
    ensures |r| == |row|
  {
    if row == [] then [] else [Enc64(row[0])] + IntCols(row[1..])
  }

  function Eights(n: nat): (r: seq<nat>)
    ensures |r| == n && forall i :: 0 <= i < n ==> r[i] == 8
  {
    seq(n, _ => 8)
  }

  lemma {:induction false} ConcatInts(row: seq<int>)
    ensures Concat(IntCols(row)) == EncAll(row)
  {
    if row != [] {
      ConcatInts(row[1..]);
      assert IntCols(row)[1..] == IntCols(row[1..]);
    }
  }

  lemma {:induction false} IntColSizes(row: seq<int>)
    ensures SizesOf(IntCols(row)) == Eights(|row|)
  {
    forall i | 0 <= i < |row| ensures |IntCols(row)[i]| == 8 { IntColAt(row, i); }
  }

  lemma {:induction false} IntColAt(row: seq<int>, i: nat)
    requires i < |row|
    ensures IntCols(row)[i] == Enc64(row[i])
  {
    if i > 0 { IntColAt(row[1..], i - 1); }
  }

  lemma {:induction false} PickInts(attrs: seq<Attr>, row: seq<int>)
    requires |row| == |attrs|
    ensures Pick(KeyFlags(attrs), IntCols(row), true) == IntCols(KeyCols(attrs, row))
    ensures Pick(KeyFlags(attrs), IntCols(row), false) == IntCols(ValueCols(attrs, row))
  {
    hide Enc64, KeyCount;
    if attrs != [] {
      PickInts(attrs[1..], row[1..]);
      assert KeyFlags(attrs)[1..] == KeyFlags(attrs[1..]) && IntCols(row)[1..] == IntCols(row[1..]);
      OneIntCol(row[0], KeyCols(attrs[1..], row[1..]));
      OneIntCol(row[0], ValueCols(attrs[1..], row[1..]));
    }
  }

  lemma OneIntCol(v: int, vs: seq<int>)
    ensures IntCols([v] + vs) == [Enc64(v)] + IntCols(vs) && IntCols([] + vs) == IntCols(vs)
  {
    assert ([v] + vs)[1..] == vs && [] + vs == vs;
  }

  lemma {:induction false} TotalInts(attrs: seq<Attr>)
    ensures Total(KeyFlags(attrs), Eights(|attrs|), true) == 8 * KeyCount(attrs)
    ensures Total(KeyFlags(attrs), Eights(|attrs|), false) == 8 * (|attrs| - KeyCount(attrs))
  {
    if attrs != [] {
      TotalInts(attrs[1..]);
      assert KeyFlags(attrs)[1..] == KeyFlags(attrs[1..]) && Eights(|attrs|)[1..] == Eights(|attrs[1..]|);
    }
  }

  /** Key and value of a row: buffers of the fixed lengths, prefix, columns. */
  method SplitRow(s: Schema, row: seq<int>)
    returns (key: array<byte>, keyLen: nat, value: array<byte>, valueLen: nat)
    requires |row| == |s.attrs|
    ensures keyLen <= key.Length && key[..keyLen] == RowKey(s, row)
    ensures valueLen <= value.Length && value[..valueLen] == RowValue(s, row)
  {
    hide EncAll, KeyCols, ValueCols, KeyCount, Concat, Pick, Total, KeyFlags, IntCols, Eights;
    var image := EncAll(row);
    var tuple := new byte[|image|](i requires 0 <= i < |image| => image[i]);
    assert tuple[..] == image;
    var start := Prefix(s.name);
    var prefix := new byte[|start|](i requires 0 <= i < |start| => start[i]);
    assert prefix[..] == start;
    var keys, sizes := KeyFlags(s.attrs), Eights(|s.attrs|);
    var keySize := FixedKeyLength(s.name, keys, sizes);
    var valueSize := FixedValueLength(keys, sizes);
    key := new byte[keySize](_ => 0);
    value := new byte[valueSize](_ => 0);
    CopyBytes(key, 0, prefix, 0, prefix.Length);
    assert key[..|start|] == start;
    ConcatInts(row);
    IntColSizes(row);
    keyLen, valueLen := CopyColumns(s.name, prefix.Length, keys, sizes, IntCols(row), tuple, key, value);
    PickInts(s.attrs, row);
    ConcatInts(KeyCols(s.attrs, row));
    ConcatInts(ValueCols(s.attrs, row));
    assert value[..valueLen] == value[..];
  }

  /** The columns from `i` on, read from the rest of the key and the value. */
  ghost function Rest(s: Schema, i: nat, key: bytes, value: bytes): seq<int>
    requires i <= |s.attrs|
    requires |key| >= 8 * KeyCount(s.attrs[i..]) && |value| >= 8 * (|s.attrs| - i - KeyCount(s.attrs[i..]))
  {
    Weave(s.attrs[i..], DecAll(key, KeyCount(s.attrs[i..])), DecAll(value, |s.attrs| - i - KeyCount(s.attrs[i..])))
  }

  lemma RestStep(s: Schema, i: nat, key: bytes, value: bytes)
    requires i < |s.attrs|
    requires |key| >= 8 * KeyCount(s.attrs[i..]) && |value| >= 8 * (|s.attrs| - i - KeyCount(s.attrs[i..]))
    ensures KeyCount(s.attrs[i..]) == KeyCount(s.attrs[i + 1..]) + (if s.attrs[i].isKey then 1 else 0)
    ensures |s.attrs| - i - KeyCount(s.attrs[i..]) ==
            |s.attrs| - (i + 1) - KeyCount(s.attrs[i + 1..]) + (if s.attrs[i].isKey then 0 else 1)
    ensures Rest(s, i, key, value) ==
            if s.attrs[i].isKey then [Dec64(key[..8])] + Rest(s, i + 1, key[8..], value)
            else [Dec64(value[..8])] + Rest(s, i + 1, key, value[8..])
  {
    hide Dec64;
    assert s.attrs[i..][1..] == s.attrs[i + 1..];
    var n := KeyCount(s.attrs[i..]);
    if s.attrs[i].isKey {
      assert DecAll(key, n)[1..] == DecAll(key[8..], n - 1);
    } else {
      assert DecAll(value, |s.attrs| - i - n)[1..] == DecAll(value[8..], |s.attrs| - i - n - 1);
    }
  }

  /** Column `i` of a record, at the running offsets. */
  lemma ReadStep(s: Schema, i: nat, row: seq<int>, k: bytes, ko: nat, v: bytes, vo: nat)
    requires i < |s.attrs| && ko <= |k| && vo <= |v|
    requires 0 <= KeyCount(s.attrs[i..]) <= |s.attrs| - i
    requires |k| - ko >= 8 * KeyCount(s.attrs[i..]) && |v| - vo >= 8 * (|s.attrs| - i - KeyCount(s.attrs[i..]))
    ensures KeyCount(s.attrs[i..]) == KeyCount(s.attrs[i + 1..]) + (if s.attrs[i].isKey then 1 else 0)
    ensures row + Rest(s, i, k[ko..], v[vo..]) ==
            if s.attrs[i].isKey then row + [Dec64(k[ko..ko + 8])] + Rest(s, i + 1, k[ko + 8..], v[vo..])
            else row + [Dec64(v[vo..vo + 8])] + Rest(s, i + 1, k[ko..], v[vo + 8..])
  {
    hide Dec64, Rest, KeyCount;
    RestStep(s, i, k[ko..], v[vo..]);
    if s.attrs[i].isKey {
      assert k[ko..][..8] == k[ko..ko + 8] && k[ko..][8..] == k[ko + 8..];
    } else {
      assert v[vo..][..8] == v[vo..vo + 8] && v[vo..][8..] == v[vo + 8..];
    }
  }

  /** The loads a scan performs on one record, column by column, with one
      running offset in the key buffer and one in the value buffer. */
  method ReadRow(s: Schema, key: array<byte>, value: array<byte>) returns (row: seq<int>)
    requires key.Length > 0 && Decodable(s, key[..key.Length - 1], value[..])
    ensures row == DecodeRecord(s, key[..key.Length - 1], value[..])
  {
    hide DecAll, Weave, Dec64, KeyCount, Rest, DecodeRecord, ReadSoFar;
    row := [];
    var keyOffset, valueOffset := |s.name| + 1, 0;
    ghost var k, v := key[..key.Length - 1], value[..];
    ReadStarts(s, k, v);
    for i := 0 to |s.attrs|
      invariant 0 <= keyOffset && 0 <= valueOffset
      invariant ReadSoFar(s, i, row, k, keyOffset, v, valueOffset)
    {
      ReadGoesOn(s, i, row, k, keyOffset, v, valueOffset);
      if s.attrs[i].isKey {
        assert key[keyOffset..keyOffset + 8] == k[keyOffset..keyOffset + 8];
        row := row + [Dec64(key[keyOffset..keyOffset + 8])];
        keyOffset := keyOffset + 8;
      } else {
        assert value[valueOffset..valueOffset + 8] == v[valueOffset..valueOffset + 8];
        row := row + [Dec64(value[valueOffset..valueOffset + 8])];
        valueOffset := valueOffset + 8;
      }
    }
    ReadEnds(s, row, k, keyOffset, v, valueOffset);
  }

  /** The reading loop before column `i`: the rest of the record completes the row. */
  ghost predicate ReadSoFar(s: Schema, i: nat, row: seq<int>, k: bytes, ko: nat, v: bytes, vo: nat) {
    && i <= |s.attrs| && ko + 8 * KeyCount(s.attrs[i..]) == |k|
    && vo + 8 * (|s.attrs| - i - KeyCount(s.attrs[i..])) == |v| && Decodable(s, k, v)
    && row + Rest(s, i, k[ko..], v[vo..]) == DecodeRecord(s, k, v)
  }

  lemma ReadStarts(s: Schema, k: bytes, v: bytes)
    requires Decodable(s, k, v)
    ensures ReadSoFar(s, 0, [], k, |s.name| + 1, v, 0)
  {
    hide Rest, DecodeRecord;
    RestStart(s, k, v);
  }

  lemma ReadGoesOn(s: Schema, i: nat, row: seq<int>, k: bytes, ko: nat, v: bytes, vo: nat)
    requires ReadSoFar(s, i, row, k, ko, v, vo) && i < |s.attrs|
    ensures if s.attrs[i].isKey then ko + 8 <= |k|
            && ReadSoFar(s, i + 1, row + [Dec64(k[ko..ko + 8])], k, ko + 8, v, vo)
            else vo + 8 <= |v| && ReadSoFar(s, i + 1, row + [Dec64(v[vo..vo + 8])], k, ko, v, vo + 8)
  {
    hide Dec64, Rest, KeyCount, DecodeRecord, Decodable;
    CountBound(s.attrs[i..]);
    CountBound(s.attrs[i + 1..]);
    ReadStep(s, i, row, k, ko, v, vo);
  }

  lemma CountBound(attrs: seq<Attr>)
    ensures 0 <= KeyCount(attrs) <= |attrs|
  {
  }

  lemma ReadEnds(s: Schema, row: seq<int>, k: bytes, ko: nat, v: bytes, vo: nat)
    requires ReadSoFar(s, |s.attrs|, row, k, ko, v, vo)
    ensures row == DecodeRecord(s, k, v)
  {
    hide Rest, DecodeRecord;
    RestEnd(s, k[ko..], v[vo..]);
    assert row + [] == row;
  }

  lemma RestStart(s: Schema, key: bytes, value: bytes)
    requires Decodable(s, key, value)
    ensures s.attrs[0..] == s.attrs && value[0..] == value
    ensures DecodeRecord(s, key, value) == Rest(s, 0, key[|s.name| + 1..], value[0..])
  {
  }

  lemma RestEnd(s: Schema, key: bytes, value: bytes)
    ensures KeyCount(s.attrs[|s.attrs|..]) == 0 && Rest(s, |s.attrs|, key, value) == []
  {
  }

  /** Nothing after a key at or above the end of the range is in the range. */
  lemma {:induction false} PastEnd(rs: seq<Record>, name: bytes)
    requires Scannable(name) && Sorted(rs) && (rs != [] ==> !Less(rs[0].key, RangeEnd(name)))
    ensures Visited(rs, name) == []
  {
    if rs != [] {
      if |rs| > 1 {
        assert Less(rs[0].key, rs[1].key);
        if Less(rs[1].key, RangeEnd(name)) { LessTrans(rs[0].key, rs[1].key, RangeEnd(name)); }
      }
      PastEnd(rs[1..], name);
    }
  }

  /** The stack buffers of a scan: the key's with one spare byte, the value's. */
  predicate Fits(s: Schema, key: bytes, value: bytes) {
    |key| == |s.name| + 1 + 8 * KeyCount(s.attrs) + 1 && |value| == 8 * (|s.attrs| - KeyCount(s.attrs))
  }

  /** A copy to the start of a buffer leaves the bytes behind it. */
  function Overlay(bs: bytes, buffer: bytes): (r: bytes)
    requires |bs| <= |buffer|
    ensures |r| == |buffer|
  {
    bs + buffer[|bs|..]
  }

  /** The rows a scan reads from its buffers, record after record. A shorter record
      leaves bytes of the one before in them; a longer one would overflow them. */
  function ReadThrough(s: Schema, rs: seq<Record>, key: bytes, value: bytes): Result<seq<seq<int>>>
    requires Fits(s, key, value)
  {
    if rs == [] then Ok([])
    else if |rs[0].key| > |key| || |rs[0].value| > |value| then Err("buffer overflow")
    else
      var key1, value1 := Overlay(rs[0].key, key), Overlay(rs[0].value, value);
      var rows :- ReadThrough(s, rs[1..], key1, value1);
      Ok([DecodeRecord(s, key1[..|key1| - 1], value1)] + rows)
  }

  /** Records of the table's own lengths are read as they are. */
  lemma {:induction false} ReadsOwn(s: Schema, rs: seq<Record>, key: bytes, value: bytes)
    requires Fits(s, key, value) && AllDecodable(s, rs)
    ensures ReadThrough(s, rs, key, value) == Ok(DecodeAll(s, rs))
    decreases |rs|
  {
    hide DecodeRecord, KeyCount;
    if rs != [] {
      var key1, value1 := Overlay(rs[0].key, key), Overlay(rs[0].value, value);
      assert Decodable(s, rs[0].key, rs[0].value);
      assert key1[..|key1| - 1] == rs[0].key && value1 == rs[0].value;
      forall i | 0 <= i < |rs[1..]| ensures Decodable(s, rs[1..][i].key, rs[1..][i].value) {
        assert rs[1..][i] == rs[i + 1];
      }
      ReadsOwn(s, rs[1..], key1, value1);
    }
  }

  /** A scan overflows its buffers exactly if it visits a longer record. */
  lemma {:induction false} OverflowsExactly(s: Schema, rs: seq<Record>, key: bytes, value: bytes)
    requires Fits(s, key, value)
    ensures ReadThrough(s, rs, key, value).Err? <==>
            exists i :: 0 <= i < |rs| && (|rs[i].key| > |key| || |rs[i].value| > |value|)
    decreases |rs|
  {
    hide DecodeRecord, KeyCount;
    if rs != [] && |rs[0].key| <= |key| && |rs[0].value| <= |value| {
      OverflowsExactly(s, rs[1..], Overlay(rs[0].key, key), Overlay(rs[0].value, value));
      assert forall i :: 0 < i < |rs| ==> rs[i] == rs[1..][i - 1];
      if i :| 0 <= i < |rs| && (|rs[i].key| > |key| || |rs[i].value| > |value|) { assert rs[i] == rs[1..][i - 1]; }
    }
  }

  /** Copies a record to the start of a buffer. */
  method CopyOut(bs: bytes, buffer: array<byte>)
    requires |bs| <= buffer.Length
    modifies buffer
    ensures buffer[..] == Overlay(bs, old(buffer[..]))
  {
    for i := 0 to |bs|
      invariant buffer[..i] == bs[..i] && buffer[i..] == old(buffer[i..])
    {
      buffer[i] := bs[i];
    }
    assert buffer[..] == buffer[..|bs|] + buffer[|bs|..];
  }

  /** The history may go on with this row. */
  ghost predicate Extends(cat: Catalogue, ops: seq<Insertion>, s: Schema, row: seq<int>) {
    ValidHistory(cat, ops) && ValidInsertion(cat, Insertion(s.name, row)) && cat[s.name] == s.attrs
  }

  lemma StoreExtends(cat: Catalogue, ops: seq<Insertion>, s: Schema, row: seq<int>)
    requires Extends(cat, ops, s, row)
    ensures ValidHistory(cat, ops + [Insertion(s.name, row)])
    ensures StoreAfter(cat, ops + [Insertion(s.name, row)]) ==
            InsertRecord(StoreAfter(cat, ops), Record(RowKey(s, row), RowValue(s, row)))
  {
    hide RowKey, RowValue, InsertRecord;
    var more := ops + [Insertion(s.name, row)];
    assert more[..|more| - 1] == ops;
  }

  /** A scan of the schema shows its table after this history. */
  ghost predicate ShowsTable(cat: Catalogue, ops: seq<Insertion>, s: Schema)
    requires s.name != []
  {
    ValidHistory(cat, ops) && s.name in cat && cat[s.name] == s.attrs && Scannable(s.name) && Undisturbed(cat, s.name)
  }

  /** The database: one ordered store for all tables. */
  class Database {
    var records: seq<Record>

    constructor ()
      ensures records == []
    {
      records := [];
    }

    method Insert(s: Schema, row: seq<int>) returns (ok: bool)
      requires |row| == |s.attrs| && Sorted(records)
      modifies this
      ensures records == InsertRecord(old(records), Record(RowKey(s, row), RowValue(s, row))) && Sorted(records)
      ensures ok <==> !HasKey(old(records), RowKey(s, row))
      ensures forall cat, ops :: Extends(cat, ops, s, row) && old(records) == StoreAfter(cat, ops) ==>
                records == StoreAfter(cat, ops + [Insertion(s.name, row)])
    {
      hide StoreAfter;
      var key, keyLen, value, valueLen := SplitRow(s, row);
      var r := Record(key[..keyLen], value[..valueLen]);
      InsertContents(records, r);
      ok := forall i :: 0 <= i < |records| ==> records[i].key != r.key;
      records := InsertRecord(records, r);
      forall cat, ops | Extends(cat, ops, s, row) && old(records) == StoreAfter(cat, ops)
        ensures records == StoreAfter(cat, ops + [Insertion(s.name, row)])
      {
        StoreExtends(cat, ops, s, row);
      }
    }

    /** Places a cursor on the first key that is not below `begin`. */
    method Open(begin: bytes, ghost name: bytes) returns (cursor: nat)
      requires Scannable(name) && begin == Prefix(name)
      ensures cursor <= |records| && (cursor < |records| ==> !Less(records[cursor].key, begin))
      ensures Visited(records, name) == Visited(records[cursor..], name)
    {
      hide Less, RangeEnd;
      cursor := 0;
      assert records[0..] == records;
      while cursor < |records| && Less(records[cursor].key, begin)
        invariant cursor <= |records|
        invariant Visited(records, name) == Visited(records[cursor..], name)
      {
        assert records[cursor..][1..] == records[cursor + 1..];
        cursor := cursor + 1;
      }
    }

    /** Opens a cursor on the range of the table, and while it is valid copies the
        key and the value into the stack buffers and rebuilds the row. */
    method Scan(s: Schema, key: array<byte>, value: array<byte>) returns (r: Result<seq<seq<int>>>)
      requires Scannable(s.name) && Sorted(records) && key != value && Fits(s, key[..], value[..])
      modifies key, value
      ensures r == ReadThrough(s, Visited(records, s.name), old(key[..]), old(value[..]))
      ensures AllDecodable(s, Visited(records, s.name)) ==> r == Ok(DecodeAll(s, Visited(records, s.name)))
      ensures forall cat, ops :: ShowsTable(cat, ops, s) && records == StoreAfter(cat, ops) ==>
              r == Ok(ScanAfter(cat, ops, s.name))
    {
      hide DecodeRecord, Less, Decodable, RangeEnd, Visited, DecodeAll, AllDecodable, ReadThrough, KeyCount, Overlay,
           Fits;
      var begin, end := Prefix(s.name), RangeEnd(s.name);
      var cursor := Open(begin, s.name);
      ghost var visited := Visited(records, s.name);
      ghost var spec := ReadThrough(s, visited, key[..], value[..]);
      if AllDecodable(s, visited) { ReadsOwn(s, visited, key[..], value[..]); }
      ShowsOwn(records, s);
      var rows: seq<seq<int>> := [];
      ReadNone(spec);
      while cursor < |records| && Less(records[cursor].key, end)
        invariant cursor <= |records| && Fits(s, key[..], value[..])
        invariant cursor < |records| ==> !Less(records[cursor].key, begin)
        invariant spec == Behind(rows, ReadThrough(s, Visited(records[cursor..], s.name), key[..], value[..]))
      {
        ScanStep(records, cursor, s, rows, key[..], value[..]);
        if |records[cursor].key| > key.Length || |records[cursor].value| > value.Length {
          return Err("buffer overflow");
        }
        CopyOut(records[cursor].key, key);
        CopyOut(records[cursor].value, value);
        FitsDecodes(s, key[..], value[..]);
        assert key[..key.Length - 1] == key[..][..key.Length - 1];
        var row := ReadRow(s, key, value);
        rows := rows + [row];
        StillPast(records, cursor, begin);
        cursor := cursor + 1;
      }
      PastEnd(records[cursor..], s.name);
      ReadNothing(s, key[..], value[..]);
      assert rows + [] == rows;
      return Ok(rows);
    }
  }

  ghost function Behind(rows: seq<seq<int>>, r: Result<seq<seq<int>>>): Result<seq<seq<int>>> {
    if r.Ok? then Ok(rows + r.value) else r
  }

  lemma ReadNone(r: Result<seq<seq<int>>>)
    ensures Behind([], r) == r
  {
    if r.Ok? { assert [] + r.value == r.value; }
  }

  lemma ReadNothing(s: Schema, key: bytes, value: bytes)
    requires Fits(s, key, value)
    ensures ReadThrough(s, [], key, value) == Ok([])
  {
  }

  lemma FitsDecodes(s: Schema, key: bytes, value: bytes)
    requires Fits(s, key, value)
    ensures |key| > 0 && Decodable(s, key[..|key| - 1], value)
  {
  }

  /** After a history that leaves the table undisturbed a scan reads only records of
      the table's own lengths. */
  lemma ShowsOwn(records: seq<Record>, s: Schema)
    requires Scannable(s.name)
    ensures forall cat, ops :: ShowsTable(cat, ops, s) && records == StoreAfter(cat, ops) ==>
              && AllDecodable(s, Visited(records, s.name))
              && ScanAfter(cat, ops, s.name) == DecodeAll(s, Visited(records, s.name))
  {
    hide Visited, Decodable, DecodeAll, StoreAfter;
    forall cat, ops | ShowsTable(cat, ops, s) && records == StoreAfter(cat, ops)
      ensures AllDecodable(s, Visited(records, s.name))
              && ScanAfter(cat, ops, s.name) == DecodeAll(s, Visited(records, s.name))
    {
      forall i | 0 <= i < |Visited(records, s.name)|
        ensures Decodable(s, Visited(records, s.name)[i].key, Visited(records, s.name)[i].value)
      {
        VisitedDecodable(cat, ops, s.name, i);
      }
    }
  }

  /** The record under the cursor and the records behind it. */
  lemma ScanStep(rs: seq<Record>, i: nat, s: Schema, rows: seq<seq<int>>, key: bytes, value: bytes)
    requires Scannable(s.name) && i < |rs| && InRange(s.name, rs[i].key) && Fits(s, key, value)
    ensures var spec := Behind(rows, ReadThrough(s, Visited(rs[i..], s.name), key, value));
            if |rs[i].key| > |key| || |rs[i].value| > |value| then spec == Err("buffer overflow")
            else
              var key1, value1 := Overlay(rs[i].key, key), Overlay(rs[i].value, value);
              && Fits(s, key1, value1) && Decodable(s, key1[..|key1| - 1], value1)
              && var row := DecodeRecord(s, key1[..|key1| - 1], value1);
                 spec == Behind(rows + [row], ReadThrough(s, Visited(rs[i + 1..], s.name), key1, value1))
  {
    hide DecodeRecord, InRange, KeyCount, ReadThrough, Visited, Overlay, Fits, Decodable;
    VisitStep(rs, i, s.name);
    ThroughStep(s, rs[i], Visited(rs[i + 1..], s.name), rows, key, value);
  }

  lemma VisitStep(rs: seq<Record>, i: nat, name: bytes)
    requires Scannable(name) && i < |rs| && InRange(name, rs[i].key)
    ensures Visited(rs[i..], name) == [rs[i]] + Visited(rs[i + 1..], name)
  {
    assert rs[i..][1..] == rs[i + 1..];
  }

  lemma ThroughStep(s: Schema, r: Record, more: seq<Record>, rows: seq<seq<int>>, key: bytes, value: bytes)
    requires Fits(s, key, value)
    ensures var spec := Behind(rows, ReadThrough(s, [r] + more, key, value));
            if |r.key| > |key| || |r.value| > |value| then spec == Err("buffer overflow")
            else
              var key1, value1 := Overlay(r.key, key), Overlay(r.value, value);
              && Fits(s, key1, value1) && Decodable(s, key1[..|key1| - 1], value1)
              && var row := DecodeRecord(s, key1[..|key1| - 1], value1);
                 spec == Behind(rows + [row], ReadThrough(s, more, key1, value1))
  {
    hide DecodeRecord, KeyCount;
    assert ([r] + more)[1..] == more;
    if |r.key| <= |key| && |r.value| <= |value| {
      var key1, value1 := Overlay(r.key, key), Overlay(r.value, value);
      var rest := ReadThrough(s, more, key1, value1);
      var row := DecodeRecord(s, key1[..|key1| - 1], value1);
      if rest.Ok? { assert rows + ([row] + rest.value) == rows + [row] + rest.value; }
    }
  }

  lemma StillPast(rs: seq<Record>, i: nat, begin: bytes)
    requires Sorted(rs) && i < |rs| && !Less(rs[i].key, begin)
    ensures i + 1 < |rs| ==> !Less(rs[i + 1].key, begin)
  {
    if i + 1 < |rs| && Less(rs[i + 1].key, begin) {
      LessTrans(rs[i].key, rs[i + 1].key, begin);
    }
  }
}
