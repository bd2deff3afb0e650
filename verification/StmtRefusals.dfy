/**
 What the server of server/stmt.go refuses of COM_STMT_EXECUTE: a packet of the
 client that is cut short anywhere never reaches the handler.
 */
module StmtRefusals {
  import opened Bits
  import opened Bytes
  import opened Lists
  import opened StmtExecute

  /** A length-encoded text that is there is read alike in front of anything. */
  lemma TextLocal(rest: bytes, x: bytes)
    requires rest != [] && LengthEncodedString(rest).Some? && LengthEncodedString(rest).value.Text?
    requires LengthEncodedString(rest).value.n <= |rest|
    ensures LengthEncodedString(rest + x) == LengthEncodedString(rest)
  {
    var e := rest + x;
    NumberLocal(rest, x);
    var len := LengthEncodedInt(rest).value;
    if len.num >= 1 { SliceOfConcat(rest, x, len.n, len.n + len.num); }
  }

  lemma NumberLocal(d: bytes, x: bytes)
    requires d != [] && LengthEncodedInt(d).Some?
    ensures LengthEncodedInt(d + x) == LengthEncodedInt(d)
  {
    var e := d + x;
    if d[0] == 0xfc { assert e[1..3] == d[1..3]; }
    if d[0] == 0xfd { assert e[1..4] == d[1..4]; }
    if d[0] == 0xfe { assert e[1..9] == d[1..9]; }
  }

  lemma ReadTextLocal(tp: byte, rest: bytes, x: bytes)
    requires ReadText(tp, rest).Some?
    ensures var (a, more) := ReadText(tp, rest).value; ReadText(tp, rest + x) == Some((a, more + x))
  {
    TextLocal(rest, x);
    DropConcat(rest, x, LengthEncodedString(rest).value.n);
  }

  lemma FrontLocal(rest: bytes, n: nat, x: bytes)
    requires n <= |rest|
    ensures (rest + x)[..n] == rest[..n] && (rest + x)[n..] == rest[n..] + x
  {
  }

  lemma ReadArgLocal(tp: byte, unsigned: bool, rest: bytes, x: bytes)
    requires ReadArg(tp, unsigned, rest).Some?
    ensures var (a, more) := ReadArg(tp, unsigned, rest).value; ReadArg(tp, unsigned, rest + x) == Some((a, more + x))
  {
    if IsText(tp) {
      ReadTextLocal(tp, rest, x);
    } else {
      var n := if tp == TINY then 1 else if tp == SHORT || tp == YEAR then 2
        else if tp == INT24 || tp == LONG || tp == FLOAT then 4 else if tp == NULL then 0 else 8;
      FrontLocal(rest, n, x);
    }
  }

  /** An argument that is cut short is not read. */
  lemma CutArgument(a: Arg, k: nat)
    requires ArgOk(a) && !a.Other? && !a.Nil? && (a.Typed? ==> IsText(a.tp)) && k < |WireOf(a).value|
    ensures var w := WireOf(a); ReadArg(w.tp, w.flag >= 128, w.value[..k]) == None
  {
    var w := WireOf(a);
    var front, back := w.value[..k], w.value[k..];
    assert front + back == w.value;
    ConcatEmpty(w.value);
    ArgRead(a, []);
    if ReadArg(w.tp, w.flag >= 128, front).Some? { NotCut(w.tp, w.flag >= 128, front, back, Normal(a)); }
  }

  lemma NotCut(tp: byte, unsigned: bool, front: bytes, back: bytes, a: Arg)
    requires back != [] && ReadArg(tp, unsigned, front + back) == Some((a, []))
    ensures ReadArg(tp, unsigned, front) == None
  {
    if ReadArg(tp, unsigned, front).Some? { ReadArgLocal(tp, unsigned, front, back); }
  }

  lemma {:induction false} CutValues(args: seq<Arg>, ws: seq<Wire>, nulls: bytes, types: bytes, i: nat, rest: bytes,
                                     lost: bytes)
    requires ArgsOk(args) && Bindable(args) && i <= |args| && NullsSeen(nulls, args)
    requires ws == Wires(args) && types == TypeBytes(ws, false) && ValueBytes(ws[i..]) == rest + lost && lost != []
    ensures BindFrom(nulls, types, rest, |args|, i) == None
    decreases |args| - i
  {
    assert |ws[i..]| == |args| - i;
    if i < |args| {
      ValuesStep(ws, i);
      BindTurn(nulls, types, rest, |args|, i);
      var left := TurnOfCut(args, ws, nulls, types, i, ValueBytes(ws[i + 1..]), rest, lost);
      if left.Some? { CutValues(args, ws, nulls, types, i + 1, left.value, lost); }
    }
  }

  lemma ValuesStep(ws: seq<Wire>, i: nat)
    requires i < |ws|
    ensures ValueBytes(ws[i..]) == ws[i].value + ValueBytes(ws[i + 1..])
  {
    assert ws[i..][1..] == ws[i + 1..];
  }

  /** One turn of the binding loop on values that are cut somewhere, and what is left of them. */
  lemma TurnOfCut(args: seq<Arg>, ws: seq<Wire>, nulls: bytes, types: bytes, i: nat, more: bytes, rest: bytes,
                  lost: bytes) returns (left: Option<bytes>)
    requires ArgsOk(args) && Bindable(args) && i < |args| && NullsSeen(nulls, args) && lost != []
    requires ws == Wires(args) && types == TypeBytes(ws, false) && ws[i].value + more == rest + lost
    ensures var r := Turn(nulls, types, rest, i); if left.None? then r == None else r.Some? && r.value.1 == left.value
    ensures left.Some? ==> more == left.value + lost
  {
    var w := ws[i];
    WireAt(args, i);
    PairOf(ws, i, types);
    BindableAt(args, i);
    if args[i].Nil? {
      assert [] + more == more;
      left := Some(rest);
    } else if |rest| < |w.value| {
      assert rest == (rest + lost)[..|rest|];
      CutInArgument(args[i], more, rest);
      left := None;
    } else {
      var l := LeftOver(w.value, more, rest, lost);
      ArgRead(args[i], l);
      left := Some(l);
    }
  }

  lemma CutInArgument(a: Arg, more: bytes, rest: bytes)
    requires ArgOk(a) && !a.Other? && !a.Nil? && (a.Typed? ==> IsText(a.tp)) && |rest| < |WireOf(a).value|
    requires rest == (WireOf(a).value + more)[..|rest|]
    ensures ReadArg(WireOf(a).tp, WireOf(a).flag >= 128, rest) == None
  {
    SliceOfConcat(WireOf(a).value, more, 0, |rest|);
    CutArgument(a, |rest|);
  }

  lemma LeftOver(value: bytes, more: bytes, rest: bytes, lost: bytes) returns (left: bytes)
    requires value + more == rest + lost && |value| <= |rest|
    ensures rest == value + left && more == left + lost
  {
    left := rest[|value|..];
    assert value == (value + more)[..|value|] == rest[..|value|];
    assert more == (value + more)[|value|..] == left + lost;
  }

  lemma PartsOf(h: bytes, nulls: bytes, types: bytes, values: bytes, d: bytes)
    requires |h| == 9 && d == h + (nulls + ([1] + (types + values)))
    ensures |d| == 9 + |nulls| + 1 + |types| + |values| && d[..9] == h && d[9 + |nulls|] == 1
    ensures d[9..9 + |nulls|] == nulls && d[9 + |nulls| + 1..9 + |nulls| + 1 + |types|] == types
    ensures d[9 + |nulls| + 1 + |types|..] == values
  {
  }

  /** A packet that is cut short anywhere, the fixed part included, is refused. */
  lemma CutPacketIsRefused(id: nat, args: seq<Arg>, current: seq<Arg>, k: nat)
    requires ArgsOk(args) && Bindable(args) && !AllNil(args) && |args| < Pow256(8) && |current| == |args|
    requires k < |Packet(id, args, [], false)|
    ensures Handled(Packet(id, args, [], false)[..k], current) == None
  {
    var ws := Wires(args);
    var nulls, types, values := PackBits(Flags(args, 0)), TypeBytes(ws, false), ValueBytes(ws);
    var d := Packet(id, args, [], false);
    PlainPacket(id, args, nulls, types, values);
    PartsOf(Head(id, |args|), nulls, types, values, d);
    NullsOfArgs(args, nulls);
    CutParts(args, ws, nulls, types, values, current, d, k);
  }

  lemma PlainPacket(id: nat, args: seq<Arg>, nulls: bytes, types: bytes, values: bytes)
    requires ArgsOk(args) && !AllNil(args) && |args| < Pow256(8) && nulls == PackBits(Flags(args, 0))
    requires types == TypeBytes(Wires(args), false) && values == ValueBytes(Wires(args))
    ensures Packet(id, args, [], false) == Head(id, |args|) + (nulls + ([1] + (types + values)))
  {
    ConcatEmpty(types);
    ConcatEmpty(values);
    assert args != [] && AttributeValues([]) == [];
    assert [] + Params(args, [], false) == Params(args, [], false);
  }

  lemma NullsOfArgs(args: seq<Arg>, nulls: bytes)
    requires nulls == PackBits(Flags(args, 0))
    ensures |nulls| == BitmapByteSize(|args|) && NullsSeen(nulls, args)
  {
    forall i | 0 <= i < |args| ensures IsBitSet(nulls, i) == args[i].Nil? { PackedBit(Flags(args, 0), i); }
  }

  lemma CutParts(args: seq<Arg>, ws: seq<Wire>, nulls: bytes, types: bytes, values: bytes, current: seq<Arg>, d: bytes,
                 k: nat)
    requires ArgsOk(args) && Bindable(args) && args != [] && |current| == |args|
    requires |nulls| == BitmapByteSize(|args|) && NullsSeen(nulls, args)
    requires ws == Wires(args) && types == TypeBytes(ws, false) && values == ValueBytes(ws)
    requires |d| == 9 + |nulls| + 1 + |types| + |values| && d[9 + |nulls|] == 1 && k < |d|
    requires d[9..9 + |nulls|] == nulls && d[9 + |nulls| + 1..9 + |nulls| + 1 + |types|] == types
    requires d[9 + |nulls| + 1 + |types|..] == values
    ensures Handled(d[..k], current) == None
  {
    var m, t, c := |nulls|, |types|, d[..k];
    assert t == 2 * |args|;
    if k >= 9 + m + 1 + t {
      var rest := c[9 + m + 1 + t..];
      SlicesOfCut(d, k, m, t, rest);
      CutInValues(args, ws, nulls, types, values, current, c, rest);
    } else {
      if k >= 9 + m + 1 { assert c[9 + m] == 1; }
      CutBeforeValues(c, current, m);
    }
  }

  lemma SlicesOfCut(d: bytes, k: nat, m: nat, t: nat, rest: bytes)
    requires 9 + m + 1 + t <= k < |d| && rest == d[..k][9 + m + 1 + t..]
    ensures var c, values := d[..k], d[9 + m + 1 + t..];
      && c[9 + m] == d[9 + m] && c[9..9 + m] == d[9..9 + m]
      && c[9 + m + 1..9 + m + 1 + t] == d[9 + m + 1..9 + m + 1 + t]
      && |rest| < |values| && rest == values[..|rest|]
  {
  }

  lemma CutBeforeValues(c: bytes, current: seq<Arg>, m: nat)
    requires current != [] && m == BitmapByteSize(|current|) && |c| < 9 + m + 1 + 2 * |current|
    requires |c| >= 9 + m + 1 ==> c[9 + m] == 1
    ensures Handled(c, current) == None
  {
  }

  lemma CutInValues(args: seq<Arg>, ws: seq<Wire>, nulls: bytes, types: bytes, values: bytes, current: seq<Arg>,
                    c: bytes, rest: bytes)
    requires ArgsOk(args) && Bindable(args) && args != [] && |current| == |args|
    requires |nulls| == BitmapByteSize(|args|) && NullsSeen(nulls, args)
    requires ws == Wires(args) && types == TypeBytes(ws, false) && values == ValueBytes(ws)
    requires |rest| < |values| && rest == values[..|rest|]
    requires var m, t := |nulls|, |types|;
      && |c| >= 9 + m + 1 + t && c[9 + m] == 1 && c[9..9 + m] == nulls && c[9 + m + 1..9 + m + 1 + t] == types
      && c[9 + m + 1 + t..] == rest
    ensures Handled(c, current) == None
  {
    assert ws[0..] == ws && rest + values[|rest|..] == values;
    CutValues(args, ws, nulls, types, 0, rest, values[|rest|..]);
    NothingBound(c, current, nulls, types, rest);
  }

  lemma NothingBound(c: bytes, current: seq<Arg>, nulls: bytes, types: bytes, rest: bytes)
    requires current != [] && |nulls| == BitmapByteSize(|current|) && |types| == 2 * |current|
    requires BindFrom(nulls, types, rest, |current|, 0) == None
    requires var m, t := |nulls|, |types|;
      && |c| >= 9 + m + 1 + t && c[9 + m] == 1 && c[9..9 + m] == nulls && c[9 + m + 1..9 + m + 1 + t] == types
      && c[9 + m + 1 + t..] == rest
    ensures Handled(c, current) == None
  {
    if HeadOk(c) { PartsHandled(c, current, nulls, types, rest, |nulls|, |types|); }
  }
}
