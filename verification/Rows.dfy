/** How a row of integers is split into a key and a value, and put together
    again. */
module Rows {
  import opened Bytes

  /** A column: whether it is part of the key. */
  datatype Attr = Attr(name: bytes, isKey: bool)

  datatype Schema = Schema(name: bytes, attrs: seq<Attr>)

  const COLON: byte := 58

  /** The bytes of a name. Names are byte strings; of a wider character only the low byte
      is kept. */
  function NameBytes(x: string): bytes { seq(|x|, i requires 0 <= i < |x| => x[i] as int % 256) }

  function KeyCols(attrs: seq<Attr>, row: seq<int>): (r: seq<int>)
    requires |row| == |attrs|
    ensures |r| == KeyCount(attrs)
  {
    if attrs == [] then []
    else (if attrs[0].isKey then [row[0]] else []) + KeyCols(attrs[1..], row[1..])
  }

  function ValueCols(attrs: seq<Attr>, row: seq<int>): (r: seq<int>)
    requires |row| == |attrs|
    ensures |r| == |attrs| - KeyCount(attrs)
  {
    if attrs == [] then []
    else (if attrs[0].isKey then [] else [row[0]]) + ValueCols(attrs[1..], row[1..])
  }

  function KeyCount(attrs: seq<Attr>): (n: nat)
    ensures n <= |attrs|
  {
    if attrs == [] then 0 else (if attrs[0].isKey then 1 else 0) + KeyCount(attrs[1..])
  }

  /** The columns in schema order, taken from the key and from the value. */
  function Weave(attrs: seq<Attr>, keys: seq<int>, values: seq<int>): (row: seq<int>)
    requires |keys| == KeyCount(attrs) && |values| == |attrs| - KeyCount(attrs)
    ensures |row| == |attrs|
  {
    if attrs == [] then []
    else if attrs[0].isKey then [keys[0]] + Weave(attrs[1..], keys[1..], values)
    else [values[0]] + Weave(attrs[1..], keys, values[1..])
  }

  /** Nothing is lost by the split, for any interleaving of key columns. */
  lemma {:induction false} WeaveSplit(attrs: seq<Attr>, row: seq<int>)
    requires |row| == |attrs|
    ensures Weave(attrs, KeyCols(attrs, row), ValueCols(attrs, row)) == row
  {
    if attrs != [] {
      WeaveSplit(attrs[1..], row[1..]);
      if attrs[0].isKey {
        assert KeyCols(attrs, row)[1..] == KeyCols(attrs[1..], row[1..]);
        assert ValueCols(attrs, row) == ValueCols(attrs[1..], row[1..]);
      } else {
        assert KeyCols(attrs, row) == KeyCols(attrs[1..], row[1..]);
        assert ValueCols(attrs, row)[1..] == ValueCols(attrs[1..], row[1..]);
      }
    }
  }

  lemma {:induction false} SplitWeave(attrs: seq<Attr>, keys: seq<int>, values: seq<int>)
    requires |keys| == KeyCount(attrs) && |values| == |attrs| - KeyCount(attrs)
    ensures KeyCols(attrs, Weave(attrs, keys, values)) == keys
    ensures ValueCols(attrs, Weave(attrs, keys, values)) == values
  {
    if attrs != [] {
      var row := Weave(attrs, keys, values);
      if attrs[0].isKey {
        SplitWeave(attrs[1..], keys[1..], values);
        assert row[1..] == Weave(attrs[1..], keys[1..], values);
      } else {
        SplitWeave(attrs[1..], keys, values[1..]);
        assert row[1..] == Weave(attrs[1..], keys, values[1..]);
      }
    }
  }

  lemma {:induction false} SplitInt64(attrs: seq<Attr>, row: seq<int>)
    requires |row| == |attrs| && AllInt64(row)
    ensures AllInt64(KeyCols(attrs, row)) && AllInt64(ValueCols(attrs, row))
  {
    if attrs != [] {
      SplitInt64(attrs[1..], row[1..]);
    }
  }

  function Prefix(name: bytes): bytes { name + [COLON] }

  /** The store key of a row: table name, ':' and the key columns. */
  function KeyOf(name: bytes, keys: seq<int>): bytes { Prefix(name) + EncAll(keys) }

  function RowKey(s: Schema, row: seq<int>): bytes
    requires |row| == |s.attrs|
  {
    KeyOf(s.name, KeyCols(s.attrs, row))
  }

  function RowValue(s: Schema, row: seq<int>): bytes
    requires |row| == |s.attrs|
  {
    EncAll(ValueCols(s.attrs, row))
  }

  predicate PlainName(name: bytes) { name != [] && COLON !in name }

  /** Equal keys come from the same table and the same key columns. */
  lemma {:induction false} KeyInjective(n1: bytes, k1: seq<int>, n2: bytes, k2: seq<int>)
    requires COLON !in n1 && COLON !in n2 && AllInt64(k1) && AllInt64(k2)
    requires KeyOf(n1, k1) == KeyOf(n2, k2)
    ensures n1 == n2 && k1 == k2
  {
    FirstColon(n1, EncAll(k1), n2, EncAll(k2));
    EncAllInjective(k1, k2);
  }

  lemma FirstColon(n1: bytes, p1: bytes, n2: bytes, p2: bytes)
    requires COLON !in n1 && COLON !in n2 && n1 + [COLON] + p1 == n2 + [COLON] + p2
    ensures n1 == n2 && p1 == p2
  {
    var whole := n1 + [COLON] + p1;
    assert whole[|n1|] == COLON && whole[|n2|] == COLON;
    assert forall i :: 0 <= i < |n1| ==> whole[i] == n1[i];
    assert forall i :: 0 <= i < |n2| ==> whole[i] == n2[i];
    assert n1 == whole[..|n1|] == n2;
    assert p1 == whole[|n1| + 1..] == p2;
  }

  /** The eight-byte integers of a byte string. */
  function DecAll(bs: bytes, n: nat): (r: seq<int>)
    requires |bs| >= 8 * n
    ensures |r| == n
  {
    if n == 0 then [] else [Dec64(bs[..8])] + DecAll(bs[8..], n - 1)
  }

  lemma {:induction false} DecAllEncAll(vs: seq<int>)
    requires AllInt64(vs)
    ensures DecAll(EncAll(vs), |vs|) == vs
  {
    if vs != [] {
      DecAllEncAll(vs[1..]);
      Dec64Enc64(vs[0]);
      assert EncAll(vs)[..8] == Enc64(vs[0]) && EncAll(vs)[8..] == EncAll(vs[1..]);
    }
  }

  predicate Decodable(s: Schema, key: bytes, value: bytes) {
    && |key| == |s.name| + 1 + 8 * KeyCount(s.attrs)
    && |value| == 8 * (|s.attrs| - KeyCount(s.attrs))
  }

  /** The row that a scan of `s` rebuilds from one record. */
  function DecodeRecord(s: Schema, key: bytes, value: bytes): seq<int>
    requires Decodable(s, key, value)
  {
    Weave(s.attrs,
          DecAll(key[|s.name| + 1..], KeyCount(s.attrs)),
          DecAll(value, |s.attrs| - KeyCount(s.attrs)))
  }

  /** A stored row is read back unchanged. */
  lemma RecordRoundTrip(s: Schema, row: seq<int>)
    requires |row| == |s.attrs| && AllInt64(row)
    ensures Decodable(s, RowKey(s, row), RowValue(s, row))
    ensures DecodeRecord(s, RowKey(s, row), RowValue(s, row)) == row
  {
    SplitInt64(s.attrs, row);
    DecAllEncAll(KeyCols(s.attrs, row));
    DecAllEncAll(ValueCols(s.attrs, row));
    assert RowKey(s, row)[|s.name| + 1..] == EncAll(KeyCols(s.attrs, row));
    WeaveSplit(s.attrs, row);
  }
}
