/** Splitting a row image into a key and a value buffer, for columns of any
    fixed sizes. */
module Columns {
  import opened Bytes
  import opened Rows

  function Concat(cols: seq<bytes>): bytes {
    if cols == [] then [] else cols[0] + Concat(cols[1..])
  }

  /** The key columns, or the others, in order. */
  function Pick(keys: seq<bool>, cols: seq<bytes>, want: bool): seq<bytes>
    requires |keys| == |cols|
  {
    if keys == [] then [] else (if keys[0] == want then [cols[0]] else []) + Pick(keys[1..], cols[1..], want)
  }

  /** The bytes of the key columns, or of the others. */
  function Total(keys: seq<bool>, sizes: seq<nat>, want: bool): nat
    requires |keys| == |sizes|
  {
    if keys == [] then 0 else (if keys[0] == want then sizes[0] else 0) + Total(keys[1..], sizes[1..], want)
  }

  function SizesOf(cols: seq<bytes>): seq<nat> { seq(|cols|, i requires 0 <= i < |cols| => |cols[i]|) }

  lemma {:induction false} ConcatAppend(a: seq<bytes>, b: seq<bytes>)
    ensures Concat(a + b) == Concat(a) + Concat(b)
  {
    if a == [] {
      assert a + b == b;
    } else {
      ConcatAppend(a[1..], b);
      assert (a + b)[1..] == a[1..] + b;
      Associates(a[0], Concat(a[1..]), Concat(b));
    }
  }

  lemma ConcatOne(col: bytes)
    ensures Concat([col]) == col
  {
    assert Concat([col]) == col + Concat([]);
  }

  /** Where column `i` stands in the image. */
  lemma ConcatAt(cols: seq<bytes>, i: nat)
    requires i < |cols|
    ensures var offset := |Concat(cols[..i])|;
            && offset + |cols[i]| <= |Concat(cols)| && Concat(cols)[offset..offset + |cols[i]|] == cols[i]
            && Concat(cols[..i + 1]) == Concat(cols[..i]) + cols[i]
  {
    hide Concat;
    assert cols[..i + 1] == cols[..i] + [cols[i]] && cols == cols[..i + 1] + cols[i + 1..];
    ConcatAppend(cols[..i], [cols[i]]);
    ConcatOne(cols[i]);
    ConcatAppend(cols[..i + 1], cols[i + 1..]);
  }

  lemma {:induction false} PickAppend(ks: seq<bool>, cs: seq<bytes>, k: bool, c: bytes, want: bool)
    requires |ks| == |cs|
    ensures Pick(ks + [k], cs + [c], want) == Pick(ks, cs, want) + if k == want then [c] else []
  {
    if ks == [] {
      assert (ks + [k])[1..] == [] && (cs + [c])[1..] == [];
    } else {
      PickAppend(ks[1..], cs[1..], k, c, want);
      assert (ks + [k])[1..] == ks[1..] + [k] && (cs + [c])[1..] == cs[1..] + [c];
    }
  }

  lemma {:induction false} TotalAppend(k1: seq<bool>, s1: seq<nat>, k2: seq<bool>, s2: seq<nat>, want: bool)
    requires |k1| == |s1| && |k2| == |s2|
    ensures Total(k1 + k2, s1 + s2, want) == Total(k1, s1, want) + Total(k2, s2, want)
  {
    if k1 == [] {
      assert k1 + k2 == k2 && s1 + s2 == s2;
    } else {
      TotalAppend(k1[1..], s1[1..], k2, s2, want);
      assert (k1 + k2)[1..] == k1[1..] + k2 && (s1 + s2)[1..] == s1[1..] + s2;
    }
  }

  /** What column `i` adds. */
  lemma TotalStep(keys: seq<bool>, sizes: seq<nat>, i: nat, want: bool)
    requires |keys| == |sizes| && i < |keys|
    ensures Total(keys[..i + 1], sizes[..i + 1], want) ==
            Total(keys[..i], sizes[..i], want) + if keys[i] == want then sizes[i] else 0
    ensures Total(keys[..i + 1], sizes[..i + 1], want) <= Total(keys, sizes, want)
  {
    hide Total;
    assert keys[..i + 1] == keys[..i] + [keys[i]] && sizes[..i + 1] == sizes[..i] + [sizes[i]];
    TotalAppend(keys[..i], sizes[..i], [keys[i]], [sizes[i]], want);
    TotalOne(keys[i], sizes[i], want);
    assert keys == keys[..i + 1] + keys[i + 1..] && sizes == sizes[..i + 1] + sizes[i + 1..];
    TotalAppend(keys[..i + 1], sizes[..i + 1], keys[i + 1..], sizes[i + 1..], want);
  }

  lemma TotalOne(key: bool, size: nat, want: bool)
    ensures Total([key], [size], want) == if key == want then size else 0
  {
    assert [key][1..] == [] && [size][1..] == [];
  }

  lemma NothingYet(keys: seq<bool>, sizes: seq<nat>, cols: seq<bytes>)
    requires |keys| == |sizes| == |cols|
    ensures forall want :: Total(keys[..0], sizes[..0], want) == 0 && Concat(Pick(keys[..0], cols[..0], want)) == []
    ensures Concat(cols[..0]) == []
  {
  }

  // The length loops.

  /** Name, colon, key columns and one spare byte. */
  method FixedKeyLength(name: bytes, keys: seq<bool>, sizes: seq<nat>) returns (n: nat)
    requires |keys| == |sizes|
    ensures n == |name| + 1 + Total(keys, sizes, true) + 1
  {
    hide Total;
    n := |name| + 1;
    NothingYet(keys, sizes, seq(|keys|, _ => []));
    for i := 0 to |keys|
      invariant n == |name| + 1 + Total(keys[..i], sizes[..i], true)
    {
      TotalStep(keys, sizes, i, true);
      if keys[i] { n := n + sizes[i]; }
    }
    assert keys[..|keys|] == keys && sizes[..|keys|] == sizes;
    n := n + 1;
  }

  method FixedValueLength(keys: seq<bool>, sizes: seq<nat>) returns (n: nat)
    requires |keys| == |sizes|
    ensures n == Total(keys, sizes, false)
  {
    hide Total;
    n := 0;
    NothingYet(keys, sizes, seq(|keys|, _ => []));
    for i := 0 to |keys|
      invariant n == Total(keys[..i], sizes[..i], false)
    {
      TotalStep(keys, sizes, i, false);
      if !keys[i] { n := n + sizes[i]; }
    }
    assert keys[..|keys|] == keys && sizes[..|keys|] == sizes;
  }

  // The copies.

  /** A memory copy that continues what is already in the buffer. */
  method CopyBytes(dst: array<byte>, to: nat, src: array<byte>, start: nat, len: nat)
    requires dst != src && to + len <= dst.Length && start + len <= src.Length
    modifies dst
    ensures dst[..to + len] == old(dst[..to]) + src[start..start + len]
    ensures dst[to + len..] == old(dst[to + len..])
  {
    for i := 0 to len
      invariant dst[..to + i] == old(dst[..to]) + src[start..start + i]
      invariant dst[to + len..] == old(dst[to + len..])
    {
      dst[to + i] := src[start + i];
    }
  }

  /** One column goes to the next free bytes of the key or of the value. */
  method CopyColumn(isKey: bool, tuple: array<byte>, offset: nat, size: nat, key: array<byte>, keyLen: nat,
      value: array<byte>, valueLen: nat)
    returns (newKeyLen: nat, newValueLen: nat)
    requires key != value && key != tuple && value != tuple && offset + size <= tuple.Length
    requires keyLen + (if isKey then size else 0) <= key.Length
    requires valueLen + (if isKey then 0 else size) <= value.Length
    modifies key, value
    ensures newKeyLen == keyLen + (if isKey then size else 0)
    ensures newValueLen == valueLen + (if isKey then 0 else size)
    ensures var col := tuple[..][offset..offset + size];
            && key[..newKeyLen] == old(key[..keyLen]) + (if isKey then col else [])
            && value[..newValueLen] == old(value[..valueLen]) + (if isKey then [] else col)
  {
    newKeyLen, newValueLen := keyLen, valueLen;
    assert tuple[offset..offset + size] == tuple[..][offset..offset + size];
    if isKey {
      CopyBytes(key, keyLen, tuple, offset, size);
      newKeyLen := keyLen + size;
    } else {
      CopyBytes(value, valueLen, tuple, offset, size);
      newValueLen := valueLen + size;
    }
  }

  /** The key bytes and the value bytes of the first `i` columns. */
  ghost function Part(name: bytes, keys: seq<bool>, cols: seq<bytes>, i: nat, want: bool): bytes
    requires i <= |keys| == |cols|
  {
    (if want then Prefix(name) else []) + Concat(Pick(keys[..i], cols[..i], want))
  }

  lemma PartStep(name: bytes, keys: seq<bool>, cols: seq<bytes>, i: nat, want: bool)
    requires i < |keys| == |cols|
    ensures Part(name, keys, cols, i + 1, want) ==
            Part(name, keys, cols, i, want) + if keys[i] == want then cols[i] else []
  {
    hide Concat, Pick, Prefix;
    assert keys[..i + 1] == keys[..i] + [keys[i]] && cols[..i + 1] == cols[..i] + [cols[i]];
    PickAppend(keys[..i], cols[..i], keys[i], cols[i], want);
    var before := Pick(keys[..i], cols[..i], want);
    if keys[i] == want {
      ConcatAppend(before, [cols[i]]);
      ConcatOne(cols[i]);
      Associates(if want then Prefix(name) else [], Concat(before), cols[i]);
    } else {
      assert before + [] == before;
    }
  }

  /** The copies an insert performs on the row image `tuple`: every column goes to
      the next free bytes of the key or of the value buffer. All writes stay
      inside the buffers, the key fills its buffer up to one spare byte, the
      value fills its buffer. */
  method CopyColumns(ghost name: bytes, prefixLen: nat, keys: seq<bool>, sizes: seq<nat>, ghost cols: seq<bytes>,
                     tuple: array<byte>, key: array<byte>, value: array<byte>)
    returns (keyLen: nat, valueLen: nat)
    requires |keys| == |sizes| == |cols| && sizes == SizesOf(cols) && tuple[..] == Concat(cols)
    requires key != value && key != tuple && value != tuple
    requires key.Length == prefixLen + Total(keys, sizes, true) + 1 && value.Length == Total(keys, sizes, false)
    requires prefixLen == |name| + 1 && key[..prefixLen] == Prefix(name)
    modifies key, value
    ensures keyLen == key.Length - 1 && key[..keyLen] == Prefix(name) + Concat(Pick(keys, cols, true))
    ensures valueLen == value.Length && value[..] == Concat(Pick(keys, cols, false))
  {
    hide Concat, Pick, Total, Prefix, Part;
    NothingYet(keys, sizes, cols);
    PartStarts(name, keys, cols);
    keyLen, valueLen := prefixLen, 0;
    var offset := 0;
    for i := 0 to |keys|
      invariant offset == |Concat(cols[..i])|
      invariant keyLen == prefixLen + Total(keys[..i], sizes[..i], true) < key.Length
      invariant valueLen == Total(keys[..i], sizes[..i], false) <= value.Length
      invariant key[..keyLen] == Part(name, keys, cols, i, true)
      invariant value[..valueLen] == Part(name, keys, cols, i, false)
    {
      ConcatAt(cols, i);
      TotalStep(keys, sizes, i, true);
      TotalStep(keys, sizes, i, false);
      PartStep(name, keys, cols, i, true);
      PartStep(name, keys, cols, i, false);
      keyLen, valueLen := CopyColumn(keys[i], tuple, offset, sizes[i], key, keyLen, value, valueLen);
      offset := offset + sizes[i];
    }
    assert keys[..|keys|] == keys && sizes[..|keys|] == sizes && cols[..|keys|] == cols;
    PartEnds(name, keys, cols);
    assert value[..] == value[..valueLen];
  }

  lemma PartStarts(name: bytes, keys: seq<bool>, cols: seq<bytes>)
    requires |keys| == |cols|
    ensures Part(name, keys, cols, 0, true) == Prefix(name) && Part(name, keys, cols, 0, false) == []
  {
  }

  lemma PartEnds(name: bytes, keys: seq<bool>, cols: seq<bytes>)
    requires |keys| == |cols|
    ensures Part(name, keys, cols, |keys|, true) == Prefix(name) + Concat(Pick(keys, cols, true))
    ensures Part(name, keys, cols, |keys|, false) == Concat(Pick(keys, cols, false))
  {
    assert keys[..|keys|] == keys && cols[..|keys|] == cols;
  }
}
