/** The tuple codec for integer schemas with nullable columns: what encoding
    leaves in a buffer and exactly when decoding gives the tuple back. */
module Codec {
  import opened Ast
  import opened Int64
  import opened Bytes
  import opened Rows

  type Cell = Option<int>

  /** A flag byte is written only for a column whose sole property is nullable. */
  predicate HasFlag(p: Props) { p.nullable && !p.key && !p.unique }

  /** A null where none may stand: only columns whose properties are nullable and
      nothing else take one. */
  ghost predicate Misplaced(p: Props, cell: Cell) { cell.None? && p != Props(false, true, false) }

  function CellLength(p: Props, cell: Cell): Result<nat> {
    if HasFlag(p) then Ok(if cell.None? then 1 else 9)
    else if cell.None? then Err("NON-Nullable cell was null")
    else Ok(8)
  }

  ghost predicate Encodable(ps: seq<Props>, cells: seq<Cell>) {
    && |ps| == |cells|
    && forall i :: 0 <= i < |ps| ==> !Misplaced(ps[i], cells[i]) && (cells[i].Some? ==> IsInt64(cells[i].value))
  }

  function Size(p: Props, cell: Cell): nat { if HasFlag(p) then (if cell.None? then 1 else 9) else 8 }

  function Sizes(ps: seq<Props>, cells: seq<Cell>): nat
    requires |ps| == |cells|
  {
    if ps == [] then 0 else Size(ps[0], cells[0]) + Sizes(ps[1..], cells[1..])
  }

  /** What a cell's bytes are after encoding into bytes `was`; a null leaves its
      flag byte as it was. */
  function CellBytes(p: Props, cell: Cell, was: bytes): (r: bytes)
    requires |was| == Size(p, cell)
    ensures |r| == |was|
  {
    if cell.None? then was
    else if HasFlag(p) then [1] + Enc64(cell.value)
    else Enc64(cell.value)
  }

  function Encoded(ps: seq<Props>, cells: seq<Cell>, was: bytes): (r: bytes)
    requires |ps| == |cells| && |was| == Sizes(ps, cells)
    ensures |r| == |was|
  {
    if ps == [] then []
    else
      var n := Size(ps[0], cells[0]);
      CellBytes(ps[0], cells[0], was[..n]) + Encoded(ps[1..], cells[1..], was[n..])
  }

  /** One cell off the front; `None` where the bytes run out. */
  function DecodedCell(p: Props, bs: bytes): Option<Cell> {
    if HasFlag(p) then
      if bs == [] then None
      else if bs[0] == 0 then Some(None)
      else if |bs| < 9 then None
      else Some(Some(Dec64(bs[1..9])))
    else if |bs| < 8 then None
    else Some(Some(Dec64(bs[..8])))
  }

  /** The offset of a column depends on the cells decoded before it. */
  function Decoded(ps: seq<Props>, bs: bytes): Option<seq<Cell>> {
    if ps == [] then Some([])
    else
      var cell :- DecodedCell(ps[0], bs);
      if |bs| < Size(ps[0], cell) then None
      else
        var cells :- Decoded(ps[1..], bs[Size(ps[0], cell)..]);
        Some([cell] + cells)
  }

  /** The flag bytes of null cells are zero before encoding. */
  predicate FlagsClear(ps: seq<Props>, cells: seq<Cell>, was: bytes)
    requires |ps| == |cells| && |was| == Sizes(ps, cells)
  {
    ps != [] ==>
      var n := Size(ps[0], cells[0]);
      && (cells[0].None? && ps[0] == Props(false, true, false) ==> was[0] == 0)
      && FlagsClear(ps[1..], cells[1..], was[n..])
  }

  lemma CellRoundTrip(p: Props, cell: Cell, was: bytes, tail: bytes)
    requires !Misplaced(p, cell) && (cell.Some? ==> IsInt64(cell.value)) && |was| == Size(p, cell)
    ensures DecodedCell(p, CellBytes(p, cell, was) + tail) == Some(cell) <==> (cell.None? ==> was[0] == 0)
  {
    var bs := CellBytes(p, cell, was) + tail;
    if cell.Some? {
      Dec64Enc64(cell.value);
      if HasFlag(p) {
        assert bs[1..9] == Enc64(cell.value);
      } else {
        assert bs[..8] == Enc64(cell.value);
      }
    }
  }

  /** A tuple is decoded cell by cell. */
  lemma DecodedFront(ps: seq<Props>, cells: seq<Cell>, bs: bytes)
    requires ps != [] && |cells| == |ps| && Size(ps[0], cells[0]) <= |bs|
    ensures Decoded(ps, bs) == Some(cells) <==>
            DecodedCell(ps[0], bs) == Some(cells[0])
                && Decoded(ps[1..], bs[Size(ps[0], cells[0])..]) == Some(cells[1..])
  {
    hide DecodedCell, Size;
    var d := Decoded(ps, bs);
    if d.Some? {
      var cell := DecodedCell(ps[0], bs).value;
      var more := Decoded(ps[1..], bs[Size(ps[0], cell)..]).value;
      assert d.value == [cell] + more && d.value[0] == cell && d.value[1..] == more;
    }
    assert cells == [cells[0]] + cells[1..];
  }

  lemma EncodedFront(ps: seq<Props>, cells: seq<Cell>, was: bytes, tail: bytes)
    requires ps != [] && |ps| == |cells| && |was| == Sizes(ps, cells)
    ensures var n := Size(ps[0], cells[0]);
            && n <= |was| && Sizes(ps[1..], cells[1..]) == |was| - n
            && var rest := Encoded(ps[1..], cells[1..], was[n..]) + tail;
               && Encoded(ps, cells, was) + tail == CellBytes(ps[0], cells[0], was[..n]) + rest
               && n <= |Encoded(ps, cells, was) + tail| && (Encoded(ps, cells, was) + tail)[n..] == rest
  {
    hide CellBytes, Size;
    var n := Size(ps[0], cells[0]);
    Associates(CellBytes(ps[0], cells[0], was[..n]), Encoded(ps[1..], cells[1..], was[n..]), tail);
  }

  /** Decoding undoes encoding exactly when the flag bytes of null cells were zero
      in the buffer. */
  lemma {:induction false} CodecExact(ps: seq<Props>, cells: seq<Cell>, was: bytes, tail: bytes)
    requires Encodable(ps, cells) && |was| == Sizes(ps, cells)
    ensures Decoded(ps, Encoded(ps, cells, was) + tail) == Some(cells) <==> FlagsClear(ps, cells, was)
    decreases |ps|
  {
    hide Encoded, CellBytes, DecodedCell;
    if ps != [] {
      var n := Size(ps[0], cells[0]);
      EncodedFront(ps, cells, was, tail);
      CellRoundTrip(ps[0], cells[0], was[..n], Encoded(ps[1..], cells[1..], was[n..]) + tail);
      CodecExact(ps[1..], cells[1..], was[n..], tail);
      DecodedFront(ps, cells, Encoded(ps, cells, was) + tail);
    }
  }

  lemma {:induction false} ZerosAreClear(ps: seq<Props>, cells: seq<Cell>, was: bytes)
    requires |ps| == |cells| && |was| == Sizes(ps, cells) && forall i :: 0 <= i < |was| ==> was[i] == 0
    ensures FlagsClear(ps, cells, was)
    decreases |ps|
  {
    if ps != [] { ZerosAreClear(ps[1..], cells[1..], was[Size(ps[0], cells[0])..]); }
  }

  /** A tuple encoded into a zeroed buffer, decoded after the name prefix. */
  lemma RowRoundTrip(name: bytes, ps: seq<Props>, cells: seq<Cell>, was: bytes)
    requires Encodable(ps, cells) && |was| == Sizes(ps, cells) && forall i :: 0 <= i < |was| ==> was[i] == 0
    ensures Decoded(ps, (Prefix(name) + Encoded(ps, cells, was))[|name| + 1..]) == Some(cells)
  {
    hide Encoded, Decoded;
    ZerosAreClear(ps, cells, was);
    CodecExact(ps, cells, was, []);
    assert (Prefix(name) + Encoded(ps, cells, was))[|name| + 1..] == Encoded(ps, cells, was) + [];
  }

  // The bytes themselves.

  /** How many cells hold a value. */
  function Present(cells: seq<Cell>): nat {
    if cells == [] then 0 else (if cells[0].Some? then 1 else 0) + Present(cells[1..])
  }

  /** How many columns have nullable as their only property. */
  function Nullables(ps: seq<Props>): nat {
    if ps == [] then 0 else (if ps[0] == Props(false, true, false) then 1 else 0) + Nullables(ps[1..])
  }

  /** Eight bytes for each value, and one for each column that may be null. */
  lemma {:induction false} LengthExactly(ps: seq<Props>, cells: seq<Cell>)
    requires |ps| == |cells| && forall i :: 0 <= i < |ps| ==> !Misplaced(ps[i], cells[i])
    ensures Sizes(ps, cells) == 8 * Present(cells) + Nullables(ps)
    decreases |ps|
  {
    if ps != [] { LengthExactly(ps[1..], cells[1..]); }
  }

  function ValuesOf(cells: seq<Cell>): (vs: seq<int>)
    requires forall i :: 0 <= i < |cells| ==> cells[i].Some?
    ensures |vs| == |cells|
  {
    if cells == [] then [] else [cells[0].value] + ValuesOf(cells[1..])
  }

  /** Without such columns the bytes of a tuple are the image of its values in memory,
      the one that an insert copies. */
  lemma {:induction false} PlainTupleIsImage(ps: seq<Props>, cells: seq<Cell>, was: bytes)
    requires |ps| == |cells| && |was| == Sizes(ps, cells)
    requires forall i :: 0 <= i < |ps| ==> ps[i] != Props(false, true, false) && cells[i].Some?
    ensures Encoded(ps, cells, was) == EncAll(ValuesOf(cells)) && |was| == 8 * |ps|
    decreases |ps|
  {
    hide Enc64;
    if ps != [] {
      PlainTupleIsImage(ps[1..], cells[1..], was[Size(ps[0], cells[0])..]);
      assert ValuesOf(cells)[1..] == ValuesOf(cells[1..]);
    }
  }

  /** A nullable cell is a one and its value, or a flag byte that stays as it was. */
  lemma NullableIsFlagged(cell: Cell, was: bytes)
    requires |was| == if cell.None? then 1 else 9
    ensures var p := Props(false, true, false);
            && Size(p, cell) == |was|
            && CellBytes(p, cell, was) == (if cell.None? then was else [1] + Enc64(cell.value))
            && (cell.None? ==> (DecodedCell(p, was) == Some(None) <==> was[0] == 0))
  {
  }

  // Lengths.

  function KeySizes(ps: seq<Props>, cells: seq<Cell>, key: bool): nat
    requires |ps| == |cells|
  {
    if ps == [] then 0
    else (if ps[0].key == key then Size(ps[0], cells[0]) else 0) + KeySizes(ps[1..], cells[1..], key)
  }

  /** Key and value bytes together are all bytes. */
  lemma {:induction false} LengthsConserved(ps: seq<Props>, cells: seq<Cell>)
    requires |ps| == |cells|
    ensures KeySizes(ps, cells, true) + KeySizes(ps, cells, false) == Sizes(ps, cells)
    decreases |ps|
  {
    if ps != [] { LengthsConserved(ps[1..], cells[1..]); }
  }

  /** The positions of the key columns, or of the others, from `i` on. */
  function Positions(ps: seq<Props>, key: bool, i: nat): seq<nat>
    requires i <= |ps|
    decreases |ps| - i
  {
    if i == |ps| then [] else (if ps[i].key == key then [i] else []) + Positions(ps, key, i + 1)
  }

  predicate Within(ns: seq<nat>, n: nat) { forall i :: 0 <= i < |ns| ==> ns[i] < n }

  function SumAt(ps: seq<Props>, cells: seq<Cell>, ns: seq<nat>): nat
    requires |ps| == |cells| && Within(ns, |ps|)
  {
    if ns == [] then 0 else Size(ps[ns[0]], cells[ns[0]]) + SumAt(ps, cells, ns[1..])
  }

  lemma {:induction false} PositionsExact(ps: seq<Props>, key: bool, i: nat)
    requires i <= |ps|
    ensures Within(Positions(ps, key, i), |ps|)
    ensures forall j :: j in Positions(ps, key, i) <==> i <= j < |ps| && ps[j].key == key
    decreases |ps| - i
  {
    if i < |ps| { PositionsExact(ps, key, i + 1); }
  }

  lemma SumAtNone(ps: seq<Props>, cells: seq<Cell>)
    requires |ps| == |cells|
    ensures Within([], |ps|) && SumAt(ps, cells, []) == 0
  {
  }

  lemma SumAtCons(ps: seq<Props>, cells: seq<Cell>, n: nat, ns: seq<nat>)
    requires |ps| == |cells| && n < |ps| && Within(ns, |ps|)
    ensures Within([n] + ns, |ps|) && SumAt(ps, cells, [n] + ns) == Size(ps[n], cells[n]) + SumAt(ps, cells, ns)
  {
    assert ([n] + ns)[1..] == ns;
  }

  lemma {:induction false} SumAtPositions(ps: seq<Props>, cells: seq<Cell>, key: bool, i: nat)
    requires |ps| == |cells| && i <= |ps| && Within(Positions(ps, key, i), |ps|)
    ensures SumAt(ps, cells, Positions(ps, key, i)) == KeySizes(ps[i..], cells[i..], key)
    decreases |ps| - i
  {
    hide SumAt, Size, Within;
    SumAtNone(ps, cells);
    if i < |ps| {
      PositionsExact(ps, key, i + 1);
      SumAtPositions(ps, cells, key, i + 1);
      assert ps[i..][1..] == ps[i + 1..] && cells[i..][1..] == cells[i + 1..];
      var more := Positions(ps, key, i + 1);
      SumAtCons(ps, cells, i, more);
      assert [] + more == more;
    }
  }

  method Collect(ps: seq<Props>, key: bool) returns (columns: seq<nat>)
    ensures columns == Positions(ps, key, 0)
  {
    columns := [];
    for i := 0 to |ps|
      invariant columns + Positions(ps, key, i) == Positions(ps, key, 0)
    {
      if ps[i].key == key { columns := columns + [i]; }
    }
  }

  method AddUp(start: nat, ps: seq<Props>, cells: seq<Cell>, columns: seq<nat>) returns (r: Result<nat>)
    requires |ps| == |cells| && Within(columns, |ps|)
    ensures r.Err? <==> exists j :: 0 <= j < |columns| && Misplaced(ps[columns[j]], cells[columns[j]])
    ensures r.Ok? ==> r.value == start + SumAt(ps, cells, columns)
  {
    var len := start;
    assert columns[0..] == columns;
    for j := 0 to |columns|
      invariant len + SumAt(ps, cells, columns[j..]) == start + SumAt(ps, cells, columns)
      invariant forall k :: 0 <= k < j ==> !Misplaced(ps[columns[k]], cells[columns[k]])
    {
      assert columns[j..][1..] == columns[j + 1..];
      var n :- CellLength(ps[columns[j]], cells[columns[j]]);
      len := len + n;
    }
    return Ok(len);
  }

  /** The two loops that `key_length` and `value_length` consist of: collect the
      positions, add up the lengths. */
  method PartLength(start: nat, ps: seq<Props>, cells: seq<Cell>, key: bool) returns (r: Result<nat>)
    requires |ps| == |cells|
    ensures r.Err? <==> exists i :: 0 <= i < |ps| && ps[i].key == key && Misplaced(ps[i], cells[i])
    ensures r.Ok? ==> r.value == start + KeySizes(ps, cells, key)
  {
    hide Positions, SumAt, KeySizes, Misplaced;
    var columns := Collect(ps, key);
    PositionsExact(ps, key, 0);
    SumAtPositions(ps, cells, key, 0);
    assert ps[0..] == ps && cells[0..] == cells;
    r := AddUp(start, ps, cells, columns);
    if r.Err? {
      ghost var j :| 0 <= j < |columns| && Misplaced(ps[columns[j]], cells[columns[j]]);
      assert columns[j] in columns;
    } else {
      forall i | 0 <= i < |ps| && ps[i].key == key ensures !Misplaced(ps[i], cells[i]) { assert i in columns; }
    }
  }

  method KeyLength(name: bytes, ps: seq<Props>, cells: seq<Cell>) returns (r: Result<nat>)
    requires |ps| == |cells|
    ensures r.Err? <==> exists i :: 0 <= i < |ps| && ps[i].key && Misplaced(ps[i], cells[i])
    ensures r.Ok? ==> r.value == |name| + 1 + KeySizes(ps, cells, true)
  {
    r := PartLength(|name| + 1, ps, cells, true);
  }

  method ValueLength(ps: seq<Props>, cells: seq<Cell>) returns (r: Result<nat>)
    requires |ps| == |cells|
    ensures r.Err? <==> exists i :: 0 <= i < |ps| && !ps[i].key && Misplaced(ps[i], cells[i])
    ensures r.Ok? ==> r.value == KeySizes(ps, cells, false)
  {
    r := PartLength(0, ps, cells, false);
  }

  method EncodedLength(name: bytes, ps: seq<Props>, cells: seq<Cell>) returns (r: Result<nat>)
    ensures r.Err? <==> |ps| != |cells| || exists i :: 0 <= i < |ps| && Misplaced(ps[i], cells[i])
    ensures r.Ok? ==> r.value == |name| + 1 + Sizes(ps, cells)
  {
    if |ps| != |cells| { return Err("size does not match"); }
    var sum := |name| + 1;
    assert ps[0..] == ps && cells[0..] == cells;
    for i := 0 to |ps|
      invariant sum + Sizes(ps[i..], cells[i..]) == |name| + 1 + Sizes(ps, cells)
      invariant forall j :: 0 <= j < i ==> !Misplaced(ps[j], cells[j])
    {
      assert ps[i..][1..] == ps[i + 1..] && cells[i..][1..] == cells[i + 1..];
      var n :- CellLength(ps[i], cells[i]);
      sum := sum + n;
    }
    return Ok(sum);
  }

  // The loops over a buffer.

  method PutBytes(buffer: array<byte>, at: nat, bs: bytes)
    requires at + |bs| <= buffer.Length
    modifies buffer
    ensures buffer[..] == old(buffer[..at]) + bs + old(buffer[at + |bs|..])
  {
    for i := 0 to |bs|
      invariant buffer[..at + i] == old(buffer[..at]) + bs[..i]
      invariant buffer[at + i..] == old(buffer[at + i..])
    {
      buffer[at + i] := bs[i];
    }
  }

  method EncodeCell(p: Props, cell: Cell, buffer: array<byte>, at: nat) returns (r: Result<nat>)
    requires at + Size(p, cell) <= buffer.Length
    modifies buffer
    ensures r == if Misplaced(p, cell) then Err("tuple value must be set") else Ok(Size(p, cell))
    ensures var n := Size(p, cell);
            buffer[..] == old(buffer[..at]) + CellBytes(p, cell, old(buffer[at..at + n])) + old(buffer[at + n..])
  {
    if cell.Some? {
      if HasFlag(p) {
        PutBytes(buffer, at, [1] + Enc64(cell.value));
      } else {
        PutBytes(buffer, at, Enc64(cell.value));
      }
    } else {
      ghost var n := Size(p, cell);
      assert buffer[..] == buffer[..at] + buffer[at..at + n] + buffer[at + n..];
      if !HasFlag(p) { return Err("tuple value must be set"); }
    }
    return Ok(Size(p, cell));
  }

  /** Writes the name, a colon and the tuple; bytes behind them stay as they were. */
  method EncodeRow(name: bytes, ps: seq<Props>, cells: seq<Cell>, buffer: array<byte>) returns (r: Result<nat>)
    requires |ps| == |cells| ==> |name| + 1 + Sizes(ps, cells) <= buffer.Length
    modifies buffer
    ensures r.Err? <==> |ps| != |cells| || exists i :: 0 <= i < |ps| && Misplaced(ps[i], cells[i])
    ensures r.Ok? ==>
              var start, end := |name| + 1, |name| + 1 + Sizes(ps, cells);
              && r.value == end
              && buffer[..] == Prefix(name) + Encoded(ps, cells, old(buffer[start..end])) + old(buffer[end..])
  {
    hide Encoded, Sizes;
    if |ps| != |cells| { return Err("size does not match"); }
    ghost var was := buffer[..];
    PutBytes(buffer, 0, Prefix(name));
    ghost var now := buffer[..];
    assert now == Prefix(name) + was[|name| + 1..];
    ghost var start, end := |name| + 1, |name| + 1 + Sizes(ps, cells);
    assert now[..start] == Prefix(name) && now[start..end] == was[start..end] && now[end..] == was[end..];
    r := EncodeCells(ps, cells, buffer, |name| + 1);
  }

  /** Encodes the cells from `start` on; bytes outside stay as they were. */
  method EncodeCells(ps: seq<Props>, cells: seq<Cell>, buffer: array<byte>, start: nat) returns (r: Result<nat>)
    requires |ps| == |cells| ==> start + Sizes(ps, cells) <= buffer.Length
    modifies buffer
    ensures r.Err? <==> |ps| != |cells| || exists i :: 0 <= i < |ps| && Misplaced(ps[i], cells[i])
    ensures r.Ok? ==>
              var end := start + Sizes(ps, cells);
              && r.value == end
              && buffer[..] == old(buffer[..start]) + Encoded(ps, cells, old(buffer[start..end])) + old(buffer[end..])
  {
    hide Encoded, CellBytes, Sizes, Progress;
    if |ps| != |cells| { return Err("size does not match"); }
    var end := start;
    ProgressStarts(ps, cells, buffer[..], start);
    for i := 0 to |ps|
      invariant Progress(ps, cells, i, old(buffer[..]), start, end, buffer[..])
      invariant forall j :: 0 <= j < i ==> !Misplaced(ps[j], cells[j])
    {
      ProgressFits(ps, cells, i, old(buffer[..]), start, end, buffer[..]);
      ghost var before := buffer[..];
      var n :- EncodeCell(ps[i], cells[i], buffer, end);
      ProgressStep(ps, cells, i, old(buffer[..]), start, end, before, buffer[..]);
      end := end + n;
    }
    ProgressEnds(ps, cells, old(buffer[..]), start, end, buffer[..]);
    return Ok(end);
  }

  /** The encoding loop before column `i`: the bytes from `start` to `end` are
      those of the columns done, all others are as they were. */
  ghost predicate Progress(ps: seq<Props>, cells: seq<Cell>, i: nat, was: bytes, start: nat, end: nat, now: bytes) {
    && i <= |ps| == |cells| && |now| == |was| && start <= end
    && end + Sizes(ps[i..], cells[i..]) == start + Sizes(ps, cells) <= |was|
    && now[..start] == was[..start] && now[end..] == was[end..]
    && var stop := start + Sizes(ps, cells);
       Encoded(ps, cells, was[start..stop]) == now[start..end] + Encoded(ps[i..], cells[i..], was[end..stop])
  }

  lemma ProgressStarts(ps: seq<Props>, cells: seq<Cell>, was: bytes, start: nat)
    requires |ps| == |cells| && start + Sizes(ps, cells) <= |was|
    ensures Progress(ps, cells, 0, was, start, start, was)
  {
    assert ps[0..] == ps && cells[0..] == cells;
  }

  lemma ProgressFits(ps: seq<Props>, cells: seq<Cell>, i: nat, was: bytes, start: nat, end: nat, now: bytes)
    requires Progress(ps, cells, i, was, start, end, now) && i < |ps|
    ensures end + Size(ps[i], cells[i]) <= |was|
  {
  }

  lemma ProgressStep(ps: seq<Props>, cells: seq<Cell>, i: nat, was: bytes, start: nat, end: nat, now: bytes,
      now1: bytes)
    requires Progress(ps, cells, i, was, start, end, now) && i < |ps| && end + Size(ps[i], cells[i]) <= |now|
    requires var n := Size(ps[i], cells[i]);
             now1 == now[..end] + CellBytes(ps[i], cells[i], now[end..end + n]) + now[end + n..]
    ensures Progress(ps, cells, i + 1, was, start, end + Size(ps[i], cells[i]), now1)
  {
    hide Encoded, CellBytes, Sizes, Size;
    var n, stop := Size(ps[i], cells[i]), start + Sizes(ps, cells);
    assert ps[i..][1..] == ps[i + 1..] && cells[i..][1..] == cells[i + 1..];
    EncodeStep(ps[i..], cells[i..], was[end..stop]);
    Slices(was, end, stop, n);
    assert now[end..end + n] == now[end..][..n] == was[end..][..n] == was[end..end + n];
    var cell := CellBytes(ps[i], cells[i], was[end..end + n]);
    Spliced(now, start, end, cell, now1);
    assert now1[end + n..] == now[end..][n..] == was[end..][n..] == was[end + n..];
    Regroup(now[start..end], cell, Encoded(ps[i + 1..], cells[i + 1..], was[end + n..stop]));
  }

  lemma ProgressEnds(ps: seq<Props>, cells: seq<Cell>, was: bytes, start: nat, end: nat, now: bytes)
    requires Progress(ps, cells, |ps|, was, start, end, now)
    ensures end == start + Sizes(ps, cells) <= |was|
    ensures now == was[..start] + Encoded(ps, cells, was[start..end]) + was[end..]
  {
    hide Encoded, Sizes;
    EncodeNothing(ps[|ps|..], cells[|ps|..], was[end..end]);
    Thirds(now, start, end);
    assert now[start..end] + [] == now[start..end];
  }

  lemma EncodeNothing(ps: seq<Props>, cells: seq<Cell>, was: bytes)
    requires ps == [] && cells == [] && was == []
    ensures Sizes(ps, cells) == 0 && Encoded(ps, cells, was) == []
  {
  }

  lemma Thirds(now: bytes, start: nat, end: nat)
    requires start <= end <= |now|
    ensures now == now[..start] + now[start..end] + now[end..]
  {
  }

  lemma Slices(was: bytes, end: nat, stop: nat, n: nat)
    requires end + n <= stop <= |was|
    ensures was[end..stop][..n] == was[end..end + n] && was[end..stop][n..] == was[end + n..stop]
  {
  }

  lemma Spliced(now: bytes, start: nat, end: nat, cell: bytes, now1: bytes)
    requires start <= end && end + |cell| <= |now| && now1 == now[..end] + cell + now[end + |cell|..]
    ensures |now1| == |now| && now1[..start] == now[..start]
    ensures now1[start..end + |cell|] == now[start..end] + cell && now1[end + |cell|..] == now[end + |cell|..]
  {
  }

  lemma Regroup(a: bytes, b: bytes, c: bytes)
    ensures a + (b + c) == a + b + c
  {
  }

  lemma EncodeStep(ps: seq<Props>, cells: seq<Cell>, was: bytes)
    requires |ps| == |cells| && |was| == Sizes(ps, cells) && ps != []
    ensures var n := Size(ps[0], cells[0]);
            && Sizes(ps, cells) == n + Sizes(ps[1..], cells[1..]) && n <= |was|
            && Encoded(ps, cells, was) == CellBytes(ps[0], cells[0], was[..n]) + Encoded(ps[1..], cells[1..], was[n..])
  {
  }

  /** Decodes into a tuple of `size` cells; the bytes must hold it. */
  method DecodeRow(ps: seq<Props>, buffer: array<byte>, start: nat, size: nat) returns (r: Result<seq<Cell>>)
    requires start <= buffer.Length && (size == |ps| ==> Decoded(ps, buffer[start..]).Some?)
    ensures r.Ok? <==> size == |ps|
    ensures r.Ok? ==> Some(r.value) == Decoded(ps, buffer[start..])
  {
    hide Decoded, DecodedCell, Size;
    if size != |ps| { return Err("size does not match"); }
    var cells: seq<Cell> := [];
    var offset := start;
    assert ps[0..] == ps;
    ghost var all := Decoded(ps, buffer[start..]).value;
    assert all == [] + all;
    for i := 0 to |ps|
      invariant start <= offset <= buffer.Length
      invariant Decoded(ps[i..], buffer[offset..]).Some? && all == cells + Decoded(ps[i..], buffer[offset..]).value
    {
      DecodeStep(ps[i..], buffer[offset..], cells);
      assert ps[i..][1..] == ps[i + 1..];
      var cell := DecodedCell(ps[i], buffer[offset..]).value;
      assert buffer[offset..][Size(ps[i], cell)..] == buffer[offset + Size(ps[i], cell)..];
      cells := cells + [cell];
      offset := offset + Size(ps[i], cell);
    }
    DecodeNothing(buffer[offset..]);
    assert ps[|ps|..] == [] && cells + [] == cells;
    return Ok(cells);
  }

  lemma DecodeStep(ps: seq<Props>, bs: bytes, cells: seq<Cell>)
    requires ps != [] && Decoded(ps, bs).Some?
    ensures DecodedCell(ps[0], bs).Some?
    ensures var cell := DecodedCell(ps[0], bs).value;
            var n := Size(ps[0], cell);
            && n <= |bs| && Decoded(ps[1..], bs[n..]).Some?
            && cells + Decoded(ps, bs).value == cells + [cell] + Decoded(ps[1..], bs[n..]).value
  {
    hide DecodedCell, Size;
  }

  lemma DecodeNothing(bs: bytes)
    ensures Decoded([], bs) == Some([])
  {
  }
}
