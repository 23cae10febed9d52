/** Byte strings: their order in the store and the in-memory form of integers. */
module Bytes {
  import opened Int64

  type byte = b: int | 0 <= b < 256
  type bytes = seq<byte>

  /** Unsigned lexicographic order. */
  predicate Less(a: bytes, b: bytes) {
    b != [] && (a == [] || a[0] < b[0] || (a[0] == b[0] && Less(a[1..], b[1..])))
  }

  lemma {:induction false} LessTrans(a: bytes, b: bytes, c: bytes)
    requires Less(a, b) && Less(b, c)
    ensures Less(a, c)
  {
    if a != [] && a[0] == b[0] == c[0] {
      LessTrans(a[1..], b[1..], c[1..]);
    }
  }

  lemma {:induction false} LessTotal(a: bytes, b: bytes)
    ensures Less(a, b) || a == b || Less(b, a)
    ensures !(Less(a, b) && Less(b, a)) && !Less(a, a)
  {
    if a != [] {
      LessTotal(a[1..], if b == [] then [] else b[1..]);
      if b != [] && a[0] == b[0] && a[1..] == b[1..] {
        assert a == [a[0]] + a[1..] && b == [b[0]] + b[1..];
      }
    }
  }

  /** A common first byte does not matter to the order. */
  lemma LessCons(x: byte, a: bytes, b: bytes)
    ensures Less([x] + a, [x] + b) <==> Less(a, b)
  {
    assert ([x] + a)[1..] == a && ([x] + b)[1..] == b;
  }

  /** The low `k` bytes of a number, least significant first. */
  function LittleEndian(m: nat, k: nat): (r: bytes)
    ensures |r| == k
  {
    if k == 0 then [] else [m % 256] + LittleEndian(m / 256, k - 1)
  }

  function FromLittleEndian(bs: bytes): nat {
    if bs == [] then 0 else bs[0] + 256 * FromLittleEndian(bs[1..])
  }

  function Power256(k: nat): (r: nat)
    ensures r >= 1
  {
    if k == 0 then 1 else 256 * Power256(k - 1)
  }

  lemma {:induction false} LittleEndianInverse(m: nat, k: nat)
    requires m < Power256(k)
    ensures FromLittleEndian(LittleEndian(m, k)) == m
  {
    if k > 0 {
      LittleEndianInverse(m / 256, k - 1);
      assert LittleEndian(m, k)[1..] == LittleEndian(m / 256, k - 1);
    }
  }

  /** The eight bytes of a 64-bit two's-complement integer in memory. */
  function Enc64(n: int): (r: bytes)
    ensures |r| == 8
  {
    LittleEndian(n % TWO_64, 8)
  }

  function Dec64(bs: bytes): int {
    var m := FromLittleEndian(bs);
    if m < TWO_63 then m else m - TWO_64
  }

  lemma Dec64Enc64(n: int)
    requires IsInt64(n)
    ensures Dec64(Enc64(n)) == n
  {
    assert Power256(8) == TWO_64 by {
      assert Power256(4) == 0x1_0000_0000;
      assert Power256(8) == 256 * (256 * (256 * (256 * Power256(4))));
    }
    LittleEndianInverse(n % TWO_64, 8);
  }

  /** The in-memory image of a row of integers. */
  function EncAll(vs: seq<int>): (r: bytes)
    ensures |r| == 8 * |vs|
  {
    if vs == [] then [] else Enc64(vs[0]) + EncAll(vs[1..])
  }

  lemma Associates(a: bytes, b: bytes, c: bytes)
    ensures a + (b + c) == a + b + c
  {
  }

  lemma {:induction false} EncAllAppend(vs: seq<int>, ws: seq<int>)
    ensures EncAll(vs + ws) == EncAll(vs) + EncAll(ws)
  {
    hide Enc64;
    if vs == [] {
      assert vs + ws == ws;
    } else {
      EncAllAppend(vs[1..], ws);
      var all := vs + ws;
      assert all[1..] == vs[1..] + ws && all[0] == vs[0];
      assert EncAll(all) == Enc64(vs[0]) + EncAll(all[1..]);
      Associates(Enc64(vs[0]), EncAll(vs[1..]), EncAll(ws));
    }
  }

  /** The bytes of one column. */
  lemma {:induction false} EncAllAt(vs: seq<int>, i: nat)
    requires i < |vs|
    ensures EncAll(vs)[8 * i..8 * i + 8] == Enc64(vs[i])
  {
    hide Enc64;
    var rest := EncAll(vs[1..]);
    assert EncAll(vs) == Enc64(vs[0]) + rest;
    if i > 0 {
      EncAllAt(vs[1..], i - 1);
      assert EncAll(vs)[8 * i..8 * i + 8] == rest[8 * i - 8..8 * i];
    }
  }

  predicate AllInt64(vs: seq<int>) { forall i :: 0 <= i < |vs| ==> IsInt64(vs[i]) }

  lemma {:induction false} EncAllInjective(vs: seq<int>, ws: seq<int>)
    requires AllInt64(vs) && AllInt64(ws) && EncAll(vs) == EncAll(ws)
    ensures vs == ws
  {
    assert |vs| == |ws|;
    forall i | 0 <= i < |vs|
      ensures vs[i] == ws[i]
    {
      EncAllAt(vs, i); EncAllAt(ws, i);
      Dec64Enc64(vs[i]); Dec64Enc64(ws[i]);
    }
  }
}
