/** Which keys a table scan visits: the range from `name:` up to the same
    prefix with the last byte of the name incremented. */
module ScanRange {
  import opened Bytes
  import opened Rows

  predicate Scannable(name: bytes) { PlainName(name) && name[|name| - 1] < 255 }

  function RangeEnd(name: bytes): bytes
    requires Scannable(name)
  {
    Prefix(name[..|name| - 1] + [name[|name| - 1] + 1])
  }

  predicate InRange(name: bytes, key: bytes)
    requires Scannable(name)
  {
    !Less(key, Prefix(name)) && Less(key, RangeEnd(name))
  }

  /** Keys of table `u` that a scan of table `t` meets although `u != t`:
      `u` extends `t` with a byte above ':'; or extends the incremented `t` with a
      byte below ':'; or is `t` without a final '9', because '9' incremented is
      ':' itself, and the key columns then sort below ':'. */
  predicate Strays(t: bytes, u: bytes, payload: bytes)
    requires t != []
  {
    var n := |t|;
    var last: int := t[n - 1];
    || (|u| > n && u[..n] == t && u[n] > COLON)
    || (|u| > n && u[..n - 1] == t[..n - 1] && u[n - 1] == last + 1 && u[n] < COLON)
    || (last == COLON - 1 && u == t[..n - 1] && (payload == [] || payload[0] < COLON))
  }

  /** The scan range of `t` contains a key of `u` exactly when it is the same
      table or the key strays into the range. */
  lemma {:induction false} RangeExact(t: bytes, u: bytes, payload: bytes)
    requires Scannable(t) && COLON !in u
    ensures InRange(t, Prefix(u) + payload) <==> u == t || Strays(t, u, payload)
    decreases t
  {
    if |t| == 1 {
      RangeOfOneByte(t, u, payload);
    } else {
      var key := Prefix(u) + payload;
      assert Prefix(t)[0] == RangeEnd(t)[0] == t[0] != COLON;
      if u != [] && u[0] == t[0] {
        var t1, u1 := t[1..], u[1..];
        RangeExact(t1, u1, payload);
        assert key == [t[0]] + (Prefix(u1) + payload);
        assert Prefix(t) == [t[0]] + Prefix(t1);
        assert RangeEnd(t) == [t[0]] + RangeEnd(t1);
        LessCons(t[0], Prefix(u1) + payload, Prefix(t1));
        LessCons(t[0], Prefix(u1) + payload, RangeEnd(t1));
        StraysCons(t[0], t1, u1, payload);
        assert t == [t[0]] + t1 && u == [t[0]] + u1;
      } else {
        assert key[0] == (if u == [] then COLON else u[0]);
        StraysHead(t, u, payload);
      }
    }
  }

  lemma StraysHead(t: bytes, u: bytes, payload: bytes)
    requires |t| > 1
    ensures Strays(t, u, payload) ==> u != [] && u[0] == t[0]
  {
    assert t[..|t| - 1][0] == t[0];
    if |u| > |t| { assert u[..|t|][0] == u[..|t| - 1][0] == u[0]; }
  }

  lemma StraysCons(x: byte, t: bytes, u: bytes, payload: bytes)
    requires t != []
    ensures Strays([x] + t, [x] + u, payload) <==> Strays(t, u, payload)
  {
    var n := |t|;
    var t1, u1 := [x] + t, [x] + u;
    assert t1[..n] == [x] + t[..n - 1];
    assert u1 == t1[..n] <==> u == t[..n - 1] by {
      assert u1[1..] == u && t1[..n][1..] == t[..n - 1];
    }
    if |u| > n {
      assert u1[..n + 1] == [x] + u[..n] && u1[..n] == [x] + u[..n - 1];
      assert u1[..n + 1] == t1 <==> u[..n] == t by {
        assert u1[..n + 1][1..] == u[..n] && t1[1..] == t;
      }
      assert u1[..n] == t1[..n] <==> u[..n - 1] == t[..n - 1] by {
        assert u1[..n][1..] == u[..n - 1] && t1[..n][1..] == t[..n - 1];
      }
    }
  }

  lemma RangeOfOneByte(t: bytes, u: bytes, payload: bytes)
    requires Scannable(t) && |t| == 1 && COLON !in u
    ensures InRange(t, Prefix(u) + payload) <==> u == t || Strays(t, u, payload)
  {
    var c := t[0];
    var key := Prefix(u) + payload;
    assert Prefix(t) == [c, COLON] && RangeEnd(t) == [c + 1, COLON];
    assert key[0] == (if u == [] then COLON else u[0]);
    var rest := key[1..];
    assert u == [] ==> rest == payload;
    assert u != [] ==> rest == Prefix(u[1..]) + payload;
    assert |u| > 1 ==> rest[0] == u[1];
    assert |u| == 1 ==> rest[0] == COLON;
    assert Less(rest, [COLON]) <==> rest == [] || rest[0] < COLON;
    assert [c, COLON][1..] == [c + 1, COLON][1..] == [COLON];
    assert Less(key, [c, COLON]) <==> key[0] < c || (key[0] == c && Less(rest, [COLON]));
    assert Less(key, [c + 1, COLON]) <==> key[0] < c + 1 || (key[0] == c + 1 && Less(rest, [COLON]));
    assert |u| == 1 && u[0] == c ==> u == t;
    assert t[..0] == [] && u[..0] == [];
    if |u| > 1 { assert u[..1] == [u[0]]; }
  }

  /** Whether some row of `u` could be met by a scan of `t`. */
  predicate CanStray(t: bytes, u: bytes)
    requires t != []
  {
    u != t && Strays(t, u, [])
  }

  /** The names alone decide: a scan of `t` never meets a row of `u`, whatever
      its key columns, exactly when `u` cannot stray. */
  lemma StrayExactly(t: bytes, u: bytes, columns: nat)
    requires Scannable(t) && COLON !in u && u != t
    ensures (exists keys: seq<int> :: |keys| == columns && AllInt64(keys) && InRange(t, KeyOf(u, keys)))
            <==> CanStray(t, u)
  {
    if keys: seq<int> :| |keys| == columns && AllInt64(keys) && InRange(t, KeyOf(u, keys)) {
      RangeExact(t, u, EncAll(keys));
    }
    if CanStray(t, u) {
      var keys := seq(columns, _ => 0);
      assert columns > 0 ==> EncAll(keys)[0] == 0 by {
        if columns > 0 { assert EncAll(keys) == Enc64(0) + EncAll(keys[1..]); }
      }
      RangeExact(t, u, EncAll(keys));
      assert AllInt64(keys) && InRange(t, KeyOf(u, keys));
    }
  }

  /** No key of another table with a name of the same length is in the range. */
  lemma SameLengthNeverStrays(t: bytes, u: bytes, keys: seq<int>)
    requires Scannable(t) && COLON !in u && |t| == |u|
    ensures InRange(t, KeyOf(u, keys)) <==> u == t
  {
    hide InRange;
    RangeExact(t, u, EncAll(keys));
  }

  /** Every key of a table is inside the table's own range. */
  lemma RangeComplete(t: bytes, keys: seq<int>)
    requires Scannable(t)
    ensures InRange(t, KeyOf(t, keys))
  {
    RangeExact(t, t, EncAll(keys));
  }
}
