/** The textual form of a schema: three nested readers over one stream, and
    exactly which schemas survive writing and reading. */
module SchemaText {
  import opened Ast
  import opened Int64
  import opened Grammar
  import opened Printer

  datatype AttrDef = AttrDef(name: string, kind: nat, param: nat, props: nat)

  datatype SchemaDef = SchemaDef(name: string, attrs: seq<AttrDef>)

  /** Type ids below 5, properties of 32 bits. */
  predicate InRange(a: AttrDef) { a.kind < 5 && a.props < 0x1_0000_0000 }

  // Writing.

  function WriteType(a: AttrDef): string { "(" + Numeral(a.kind) + " " + Numeral(a.param) + ")" }

  function WriteAttr(a: AttrDef): string { "(" + a.name + " " + WriteType(a) + " " + Numeral(a.props) + ")" }

  function WriteAttrs(attrs: seq<AttrDef>): string {
    if attrs == [] then "" else WriteAttr(attrs[0]) + WriteAttrs(attrs[1..])
  }

  function Write(s: SchemaDef): string { s.name + ":" + WriteAttrs(s.attrs) }

  // Reading.

  /** The characters before the first `c`, and those behind it. Without a `c` the
      reader never stops. */
  function Until(text: string, c: char): (r: Option<(string, string)>)
    ensures r.Some? ==> |r.value.1| < |text|
  {
    if text == "" then None
    else if text[0] == c then Some(("", text[1..]))
    else
      var (word, rest) :- Until(text[1..], c);
      Some(([text[0]] + word, rest))
  }

  predicate IsSpace(c: char) { c in " \t\n\r" || c as int == 11 || c as int == 12 }

  function SkipSpaces(s: string): string {
    if s != "" && IsSpace(s[0]) then SkipSpaces(s[1..]) else s
  }

  function Digits(s: string): (d: string)
    ensures AllDigits(d)
  {
    if s != "" && '0' <= s[0] <= '9' then [s[0]] + Digits(s[1..]) else ""
  }

  /** `std::stoll`: leading white space, a sign, and as many digits as follow. */
  function Stoll(s: string): Result<int> {
    var t := SkipSpaces(s);
    var negative := t != "" && t[0] == '-';
    var d := Digits(if t != "" && (t[0] == '-' || t[0] == '+') then t[1..] else t);
    var n: int := if negative then -(Decimal(d) as int) else Decimal(d);
    if d == "" then Err("invalid argument") else if !IsInt64(n) then Err("out of range") else Ok(n)
  }

  /** Conversion to an unsigned number of the given size. */
  function Unsigned(n: int, size: int): (r: nat)
    requires size > 0
    ensures r < size
  {
    n % size
  }

  /** The conversions keep a number modulo 2^64 and 2^32. */
  lemma UnsignedExact(n: int)
    ensures (Unsigned(n, TWO_64) - n) % 0x1_0000_0000_0000_0000 == 0
    ensures (Unsigned(n, 0x1_0000_0000) - n) % 0x1_0000_0000 == 0
  {
  }

  datatype Read<+T> = Got(value: T, rest: string) | Threw(error: string) | Loops {
    predicate IsFailure() { !Got? }
    function PropagateFailure<U>(): Read<U> requires !Got? { if Threw? then Threw(error) else Loops }
    function Extract(): (T, string) requires Got? { (value, rest) }
  }

  function ReadUntil(text: string, c: char): (r: Read<string>)
    ensures r.Got? ==> |r.rest| < |text|
  {
    match Until(text, c)
    case None => Loops
    case Some((word, rest)) => Got(word, rest)
  }

  function ReadNumber(text: string, close: char): (r: Read<int>)
    ensures r.Got? ==> |r.rest| < |text|
  {
    var (word, rest) :- ReadUntil(text, close);
    match Stoll(word)
    case Err(e) => Threw(e)
    case Ok(n) => Got(n, rest)
  }

  function ReadType(text: string): (r: Read<(nat, nat)>)
    ensures r.Got? ==> |r.rest| < |text|
  {
    var (_, text1) :- ReadUntil(text, '(');
    var (kind, text2) :- ReadNumber(text1, ' ');
    var (param, text3) :- ReadNumber(text2, ')');
    Got((Unsigned(kind, TWO_64), Unsigned(param, TWO_64)), text3)
  }

  function ReadAttr(text: string): (r: Read<AttrDef>)
    ensures r.Got? ==> |r.rest| < |text|
  {
    var (_, text1) :- ReadUntil(text, '(');
    var (name, text2) :- ReadUntil(text1, ' ');
    var (ty, text3) :- ReadType(text2);
    var (props, text4) :- ReadNumber(text3, ')');
    Got(AttrDef(name, ty.0, ty.1, Unsigned(props, 0x1_0000_0000)), text4)
  }

  function ReadAttrs(text: string): Read<seq<AttrDef>>
    decreases |text|
  {
    if text == "" then Got([], "")
    else
      var (a, rest) :- ReadAttr(text);
      var (attrs, rest1) :- ReadAttrs(rest);
      Got([a] + attrs, rest1)
  }

  function ReadSchema(text: string): Read<SchemaDef> {
    var (name, text1) :- ReadUntil(text, ':');
    var (attrs, text2) :- ReadAttrs(text1);
    Got(SchemaDef(name, attrs), text2)
  }

  // Reading what was written.

  lemma {:induction false} UntilFinds(word: string, c: char, rest: string)
    requires c !in word
    ensures ReadUntil(word + [c] + rest, c) == Got(word, rest)
  {
    var text := word + [c] + rest;
    if word == "" {
      assert text[1..] == rest;
    } else {
      UntilFinds(word[1..], c, rest);
      assert text[1..] == word[1..] + [c] + rest && word == [word[0]] + word[1..];
    }
  }

  lemma {:induction false} UntilNever(word: string, c: char)
    requires c !in word
    ensures ReadUntil(word, c).Loops?
  {
    if word != "" { UntilNever(word[1..], c); }
  }

  lemma {:induction false} UntilStopsInside(word: string, c: char, tail: string)
    requires c in word
    ensures ReadUntil(word + tail, c).Got? && |ReadUntil(word + tail, c).value| < |word|
  {
    var text := word + tail;
    if word[0] != c {
      UntilStopsInside(word[1..], c, tail);
      assert text[1..] == word[1..] + tail;
    }
  }

  lemma {:induction false} DigitsThen(d: string, tail: string)
    requires AllDigits(d) && (tail == "" || !('0' <= tail[0] <= '9'))
    ensures Digits(d + tail) == d
  {
    if d != "" {
      DigitsThen(d[1..], tail);
      assert (d + tail)[1..] == d[1..] + tail && d == [d[0]] + d[1..];
    } else {
      assert d + tail == tail;
    }
  }

  lemma {:induction false} SpacesSkipped(ws: string, t: string)
    requires forall i :: 0 <= i < |ws| ==> ws[i] in {' ', '\t', '\n', '\r'} || 11 <= ws[i] as int <= 12
    requires t != "" && ('0' <= t[0] <= '9' || t[0] == '-' || t[0] == '+')
    ensures SkipSpaces(ws + t) == t
  {
    if ws != "" {
      SpacesSkipped(ws[1..], t);
      assert (ws + t)[1..] == ws[1..] + t;
    } else {
      assert ws + t == t;
    }
  }

  /** A number after any white space, with or without a sign and whatever follows that
      is no digit, is read if it fits 64 bits. */
  lemma StollReads(ws: string, sign: string, n: nat, tail: string)
    requires forall i :: 0 <= i < |ws| ==> ws[i] in {' ', '\t', '\n', '\r'} || 11 <= ws[i] as int <= 12
    requires sign in {"", "-", "+"} && (tail == "" || !('0' <= tail[0] <= '9'))
    ensures var m: int := if sign == "-" then -(n as int) else n;
            Stoll(ws + (sign + (Numeral(n) + tail))) ==
            if -0x8000_0000_0000_0000 <= m < 0x8000_0000_0000_0000 then Ok(m) else Err("out of range")
  {
    hide Numeral, Decimal, Digits, SkipSpaces;
    var d := Numeral(n) + tail;
    var t := sign + d;
    SpacesSkipped(ws, t);
    DigitsThen(Numeral(n), tail);
    if sign == "" { assert t == d; } else { assert t[1..] == d; }
  }

  /** A written number is read back if it fits, with or without a space before. */
  lemma StollNumeral(n: nat)
    ensures Stoll(Numeral(n)) == Stoll(" " + Numeral(n)) == if n < TWO_63 then Ok(n) else Err("out of range")
  {
    hide Numeral, Stoll;
    StollReads("", "", n, "");
    StollReads(" ", "", n, "");
    assert "" + ("" + (Numeral(n) + "")) == Numeral(n) && " " + ("" + (Numeral(n) + "")) == " " + Numeral(n);
  }

  lemma NumberReads(n: nat, lead: string, close: char, rest: string)
    requires (lead == "" || lead == " ") && (close == ')' || (close == ' ' && lead == ""))
    ensures ReadNumber(lead + Numeral(n) + [close] + rest, close) ==
            if n < TWO_63 then Got(n, rest) else Threw("out of range")
  {
    hide Stoll, Numeral;
    var word := lead + Numeral(n);
    assert close !in word;
    UntilFinds(word, close, rest);
    StollNumeral(n);
    if lead == "" { assert word == Numeral(n); }
  }

  lemma TypeReads(a: AttrDef, rest: string)
    requires InRange(a)
    ensures ReadType(WriteType(a) + rest) ==
            if a.param < TWO_63 then Got((a.kind, a.param), rest) else Threw("out of range")
  {
    hide Numeral, ReadNumber, ReadUntil, WriteType;
    var text2 := Numeral(a.param) + ")" + rest;
    var text1 := Numeral(a.kind) + " " + text2;
    TypeText(a, rest);
    UntilFinds("", '(', text1);
    NumberReads(a.kind, "", ' ', text2);
    NumberReads(a.param, "", ')', rest);
  }

  lemma TypeText(a: AttrDef, rest: string)
    ensures var text2 := Numeral(a.param) + ")" + rest;
            var text1 := Numeral(a.kind) + " " + text2;
            && WriteType(a) + rest == "" + "(" + text1
            && "" + Numeral(a.kind) + " " + text2 == text1 && "" + Numeral(a.param) + ")" + rest == text2
  {
    hide Numeral;
  }

  predicate Survives(a: AttrDef) { ' ' !in a.name && a.param < TWO_63 }

  lemma NameReads(a: AttrDef, rest: string)
    ensures var text := WriteAttr(a) + rest;
            var behind := WriteType(a) + (" " + Numeral(a.props) + ")" + rest);
            && ReadUntil(text, '(') == Got("", a.name + " " + behind)
            && (' ' !in a.name ==> ReadUntil(a.name + " " + behind, ' ') == Got(a.name, behind))
            && (' ' in a.name ==> var r := ReadUntil(a.name + " " + behind, ' '); r.Got? && r.value != a.name)
  {
    hide Numeral, ReadUntil, WriteType;
    var behind := WriteType(a) + (" " + Numeral(a.props) + ")" + rest);
    assert WriteAttr(a) + rest == "" + "(" + (a.name + " " + behind);
    UntilFinds("", '(', a.name + " " + behind);
    if ' ' in a.name {
      UntilStopsInside(a.name, ' ', " " + behind);
      assert a.name + (" " + behind) == a.name + " " + behind;
    } else {
      UntilFinds(a.name, ' ', behind);
    }
  }

  lemma AttrReads(a: AttrDef, rest: string)
    requires InRange(a)
    ensures ReadAttr(WriteAttr(a) + rest) == Got(a, rest) <==> Survives(a)
    ensures Survives(a) || ReadAttr(WriteAttr(a) + rest).IsFailure() || ReadAttr(WriteAttr(a) + rest).value != a
  {
    hide Numeral, ReadNumber, ReadUntil, WriteType, ReadType, WriteAttr;
    NameReads(a, rest);
    TypeReads(a, " " + Numeral(a.props) + ")" + rest);
    NumberReads(a.props, " ", ')', rest);
  }

  lemma {:induction false} AttrsRead(attrs: seq<AttrDef>)
    requires forall i :: 0 <= i < |attrs| ==> InRange(attrs[i])
    ensures ReadAttrs(WriteAttrs(attrs)) == Got(attrs, "") <==> forall i :: 0 <= i < |attrs| ==> Survives(attrs[i])
    decreases |attrs|
  {
    hide ReadAttr, WriteAttr, Survives, InRange;
    if attrs != [] {
      var text, rest := WriteAttrs(attrs), WriteAttrs(attrs[1..]);
      AttrReads(attrs[0], rest);
      AttrsRead(attrs[1..]);
      WrittenSomething(attrs[0], rest);
      if ReadAttrs(text) == Got(attrs, "") {
        var more := ReadAttrs(ReadAttr(text).rest);
        assert attrs == [ReadAttr(text).value] + more.value && attrs[1..] == more.value;
      }
      if forall i :: 0 <= i < |attrs| ==> Survives(attrs[i]) {
        forall i | 0 <= i < |attrs[1..]| ensures Survives(attrs[1..][i]) { assert attrs[1..][i] == attrs[i + 1]; }
        assert attrs == [attrs[0]] + attrs[1..];
      }
      assert forall i :: 0 < i < |attrs| ==> attrs[i] == attrs[1..][i - 1];
    }
  }

  lemma WrittenSomething(a: AttrDef, rest: string)
    ensures WriteAttr(a) + rest != ""
  {
  }

  /** A schema is read back exactly when its name has no ':', no attribute name has
      a space and every parameter fits a signed 64-bit integer. */
  lemma SchemaReadsBack(s: SchemaDef)
    requires forall i :: 0 <= i < |s.attrs| ==> InRange(s.attrs[i])
    ensures ReadSchema(Write(s)) == Got(s, "") <==>
            ':' !in s.name && forall i :: 0 <= i < |s.attrs| ==> Survives(s.attrs[i])
  {
    hide ReadAttrs, WriteAttrs, ReadUntil, Survives, InRange;
    AttrsRead(s.attrs);
    if ':' in s.name {
      UntilStopsInside(s.name, ':', ":" + WriteAttrs(s.attrs));
      assert s.name + (":" + WriteAttrs(s.attrs)) == Write(s);
    } else {
      UntilFinds(s.name, ':', WriteAttrs(s.attrs));
    }
  }

  // The readers as they run.

  /** One stream position shared by the readers of the schema, of an attribute and
      of a type. */
  class TextStream {
    const text: string
    var pos: nat

    ghost predicate Valid() reads this { pos <= |text| }

    ghost function Rest(): string
      requires Valid()
      reads this
    {
      text[pos..]
    }

    /** The value read and the position it leaves; a reader that fails leaves it
        anywhere. */
    ghost predicate Agrees<T>(r: Read<T>, spec: Read<T>)
      requires Valid()
      reads this
    {
      r == spec && (spec.Got? ==> Rest() == spec.rest)
    }

    constructor (text: string)
      ensures Valid() && Rest() == text
    {
      this.text, pos := text, 0;
    }

    /** Collects characters up to `c` and steps over it. At the end of the text the
        loop would go on forever. */
    method TakeUntil(c: char) returns (r: Read<string>)
      requires Valid()
      modifies this`pos
      ensures Valid() && old(pos) <= pos && Agrees(r, ReadUntil(old(Rest()), c))
    {
      hide ReadUntil;
      ghost var from := pos;
      var word := "";
      while pos < |text| && text[pos] != c
        invariant from <= pos <= |text| && word == text[from..pos] && c !in word
      {
        word := word + [text[pos]];
        pos := pos + 1;
      }
      if pos == |text| {
        assert text[from..] == word;
        UntilNever(word, c);
        return Loops;
      }
      UntilFinds(word, c, text[pos + 1..]);
      Sliced(text, from, pos);
      pos := pos + 1;
      return Got(word, text[pos..]);
    }

    method TakeNumber(close: char) returns (r: Read<int>)
      requires Valid()
      modifies this`pos
      ensures Valid() && old(pos) <= pos && Agrees(r, ReadNumber(old(Rest()), close))
    {
      hide ReadUntil, Stoll;
      var w := TakeUntil(close);
      if !w.Got? { return w.PropagateFailure(); }
      var n := Stoll(w.value);
      return if n.Ok? then Got(n.value, w.rest) else Threw(n.error);
    }

    method TakeType() returns (r: Read<(nat, nat)>)
      requires Valid()
      modifies this`pos
      ensures Valid() && old(pos) <= pos && Agrees(r, ReadType(old(Rest())))
    {
      hide ReadUntil, ReadNumber;
      var open := TakeUntil('(');
      if !open.Got? { return open.PropagateFailure(); }
      var kind := TakeNumber(' ');
      if !kind.Got? { return kind.PropagateFailure(); }
      var param := TakeNumber(')');
      if !param.Got? { return param.PropagateFailure(); }
      return Got((Unsigned(kind.value, TWO_64), Unsigned(param.value, TWO_64)), param.rest);
    }

    method TakeAttr() returns (r: Read<AttrDef>)
      requires Valid()
      modifies this`pos
      ensures Valid() && old(pos) <= pos && Agrees(r, ReadAttr(old(Rest())))
      ensures r.Got? ==> old(pos) < pos
    {
      hide ReadUntil, ReadNumber, ReadType;
      var open := TakeUntil('(');
      if !open.Got? { return open.PropagateFailure(); }
      var name := TakeUntil(' ');
      if !name.Got? { return name.PropagateFailure(); }
      var ty := TakeType();
      if !ty.Got? { return ty.PropagateFailure(); }
      var props := TakeNumber(')');
      if !props.Got? { return props.PropagateFailure(); }
      return Got(AttrDef(name.value, ty.value.0, ty.value.1, Unsigned(props.value, 0x1_0000_0000)), props.rest);
    }

    method TakeSchema() returns (r: Read<SchemaDef>)
      requires Valid()
      modifies this`pos
      ensures Valid() && Agrees(r, ReadSchema(old(Rest())))
    {
      hide ReadUntil, ReadAttr;
      var name := TakeUntil(':');
      if !name.Got? { return name.PropagateFailure(); }
      var attrs: seq<AttrDef> := [];
      ghost var spec := ReadAttrs(Rest());
      assert spec.Got? ==> [] + spec.value == spec.value;
      while pos < |text|
        invariant Valid()
        invariant spec == Behind(attrs, ReadAttrs(Rest()))
        decreases |text| - pos
      {
        AttrsGoOn(Rest(), attrs);
        var a := TakeAttr();
        if !a.Got? { return a.PropagateFailure(); }
        attrs := attrs + [a.value];
      }
      assert attrs + [] == attrs;
      return Got(SchemaDef(name.value, attrs), "");
    }
  }

  lemma Sliced(text: string, from: nat, at: nat)
    requires from <= at < |text|
    ensures text[from..] == text[from..at] + [text[at]] + text[at + 1..]
  {
  }

  ghost function Behind(attrs: seq<AttrDef>, r: Read<seq<AttrDef>>): Read<seq<AttrDef>> {
    if r.Got? then Got(attrs + r.value, r.rest) else r
  }

  lemma AttrsGoOn(text: string, attrs: seq<AttrDef>)
    requires text != ""
    ensures var a, spec := ReadAttr(text), Behind(attrs, ReadAttrs(text));
            if a.Got? then spec == Behind(attrs + [a.value], ReadAttrs(a.rest)) else spec == a.PropagateFailure()
  {
    hide ReadAttr;
    var a := ReadAttr(text);
    if a.Got? {
      var more := ReadAttrs(a.rest);
      if more.Got? { assert attrs + ([a.value] + more.value) == attrs + [a.value] + more.value; }
    }
  }
}
