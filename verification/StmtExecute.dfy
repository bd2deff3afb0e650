/**
 COM_STMT_EXECUTE across the wire: Stmt.write in client/stmt.go against
 handleStmtExecute and bindStmtArgs in server/stmt.go. The format is that of
 the MySQL Client/Server Protocol. The client may have query attributes set;
 whether the connection has the query-attributes capability is a parameter,
 and it has not with a server that does not offer it.
 */
module StmtExecute {
  import opened Bits
  import opened Bytes
  import opened Lists

  const TINY: byte := 1
  const SHORT: byte := 2
  const LONG: byte := 3
  const FLOAT: byte := 4
  const DOUBLE: byte := 5
  const NULL: byte := 6
  const LONGLONG: byte := 8
  const INT24: byte := 9
  const YEAR: byte := 13
  const STRING: byte := 0xfe

  /**
   A Go argument: intN, uintN, int, uint, bool, floats as bits, string, []byte,
   json.RawMessage, TypedBytes; Other is any other type.
   */
  datatype Arg =
    | Nil
    | Signed(width: nat, i: int)
    | Unsigned(width: nat, u: nat)
    | Int(i: int)
    | Uint(u: nat)
    | Bool(b: bool)
    | Float32(u: nat)
    | Float64(u: nat)
    | Str(s: bytes)
    | Raw(s: bytes)
    | Json(s: bytes)
    | Typed(tp: byte, s: bytes)
    | Other

  predicate Width(n: nat) { n == 1 || n == 2 || n == 4 || n == 8 }

  /** Values of the Go types, lengths that a 64-bit number can hold. */
  predicate ArgOk(a: Arg) {
    match a
    case Signed(n, i) => Width(n) && FitsSigned(n, i)
    case Unsigned(n, u) => Width(n) && u < Pow256(n)
    case Int(i) => FitsSigned(8, i)
    case Uint(u) => u < Pow256(8)
    case Float32(u) => u < Pow256(4)
    case Float64(u) => u < Pow256(8)
    case Str(s) => |s| < Pow256(8)
    case Raw(s) => |s| < Pow256(8)
    case Json(s) => |s| < Pow256(8)
    case Typed(_, s) => |s| < Pow256(8)
    case _ => true
  }

  /** What the server hands on: native integers are 64 bits, booleans are int8, texts are typed bytes. */
  function Normal(a: Arg): (r: Arg) {
    match a
    case Int(i) => Signed(8, i)
    case Uint(u) => Unsigned(8, u)
    case Bool(b) => Signed(1, if b then 1 else 0)
    case Str(s) => Typed(STRING, s)
    case Raw(s) => Typed(STRING, s)
    case Json(s) => Typed(STRING, s)
    case _ => a
  }

  function NormalAll(args: seq<Arg>): (r: seq<Arg>) {
    if args == [] then [] else [Normal(args[0])] + NormalAll(args[1..])
  }

  // ----- the client -----

  /** The type, the flag and the value bytes of one parameter. */
  datatype Wire = Wire(tp: byte, flag: byte, value: bytes)

  function IntType(n: nat): (tp: byte) {
    if n == 1 then TINY else if n == 2 then SHORT else if n == 4 then LONG else LONGLONG
  }

  function TextBytes(s: bytes): (b: bytes)
    requires |s| < Pow256(8)
  {
    PutLengthEncodedInt(|s|) + s
  }

  /** The type switch of write; a nil argument has a type but no value. */
  function WireOf(a: Arg): (w: Wire)
    requires ArgOk(a) && !a.Other?
  {
    match a
    case Nil => Wire(NULL, 0, [])
    case Signed(n, i) => Wire(IntType(n), 0, LE(n, ToUnsigned(n, i)))
    case Unsigned(n, u) => Wire(IntType(n), 128, LE(n, u))
    case Int(i) => Wire(LONGLONG, 0, LE(8, ToUnsigned(8, i)))
    case Uint(u) => Wire(LONGLONG, 128, LE(8, u))
    case Bool(b) => Wire(TINY, 0, [if b then 1 else 0])
    case Float32(u) => Wire(FLOAT, 0, LE(4, u))
    case Float64(u) => Wire(DOUBLE, 0, LE(8, u))
    case Str(s) => Wire(STRING, 0, TextBytes(s))
    case Raw(s) => Wire(STRING, 0, TextBytes(s))
    case Json(s) => Wire(STRING, 0, TextBytes(s))
    case Typed(tp, s) => Wire(tp, 0, TextBytes(s))
  }

  /** The types and flags, in the numbers of the protocol. */
  lemma TypesAre(a: Arg)
    requires ArgOk(a) && !a.Other?
    ensures a.Nil? ==> WireOf(a).tp == 6
    ensures a.Signed? || a.Unsigned? ==>
      WireOf(a).tp == if a.width == 1 then 1 else if a.width == 2 then 2 else if a.width == 4 then 3 else 8
    ensures a.Int? || a.Uint? ==> WireOf(a).tp == 8
    ensures a.Bool? ==> WireOf(a).tp == 1
    ensures a.Float32? ==> WireOf(a).tp == 4
    ensures a.Float64? ==> WireOf(a).tp == 5
    ensures a.Str? || a.Raw? || a.Json? ==> WireOf(a).tp == 254
    ensures a.Typed? ==> WireOf(a).tp == a.tp
    ensures WireOf(a).flag == if a.Unsigned? || a.Uint? then 0x80 else 0
  {
  }

  predicate ArgsOk(args: seq<Arg>) { args == [] || (ArgOk(args[0]) && !args[0].Other? && ArgsOk(args[1..])) }

  predicate AllNil(args: seq<Arg>) { args == [] || (args[0].Nil? && AllNil(args[1..])) }

  /** A query attribute; Unsupported is a value that is neither a string nor a uint64, which `clear` also leaves. */
  datatype Attribute = Attribute(name: bytes, value: AttributeValue)

  datatype AttributeValue = AsString(s: bytes) | AsUint64(u: nat) | Unsupported

  predicate AttributeOk(q: Attribute) {
    |q.name| < Pow256(8) && (q.value.AsString? ==> |q.value.s| < Pow256(8))
      && (q.value.AsUint64? ==> q.value.u < Pow256(8))
  }

  predicate AttributesOk(qs: seq<Attribute>) { qs == [] || (AttributeOk(qs[0]) && AttributesOk(qs[1..])) }

  /** TypeAndFlag and the name. */
  function AttributeType(q: Attribute): (b: bytes)
    requires AttributeOk(q)
  {
    (if q.value.AsString? then [STRING, 0] else if q.value.AsUint64? then [LONGLONG, 128] else [0, 0])
      + TextBytes(q.name)
  }

  /** ValueBytes */
  function AttributeBytes(q: Attribute): (b: bytes)
    requires AttributeOk(q)
  {
    match q.value
    case AsString(s) => TextBytes(s)
    case AsUint64(u) => LE(8, u)
    case Unsupported => [0]
  }

  function AttributeTypes(qs: seq<Attribute>): (b: bytes)
    requires AttributesOk(qs)
  {
    if qs == [] then [] else AttributeType(qs[0]) + AttributeTypes(qs[1..])
  }

  function AttributeValues(qs: seq<Attribute>): (b: bytes)
    requires AttributesOk(qs)
  {
    if qs == [] then [] else AttributeBytes(qs[0]) + AttributeValues(qs[1..])
  }

  function Wires(args: seq<Arg>): (ws: seq<Wire>)
    requires ArgsOk(args)
    ensures |ws| == |args|
  {
    if args == [] then [] else [WireOf(args[0])] + Wires(args[1..])
  }

  /** Types and flags; with the capability an empty name follows each. */
  function TypeBytes(ws: seq<Wire>, capable: bool): (b: bytes)
    ensures !capable ==> |b| == 2 * |ws|
  {
    if ws == [] then [] else [ws[0].tp, ws[0].flag] + (if capable then [0] else []) + TypeBytes(ws[1..], capable)
  }

  function ValueBytes(ws: seq<Wire>): (b: bytes) {
    if ws == [] then [] else ws[0].value + ValueBytes(ws[1..])
  }

  /** The null flags of the arguments, then those of q attributes. */
  function Flags(args: seq<Arg>, q: nat): (flags: seq<bool>)
    ensures |flags| == |args| + q
    ensures forall i :: 0 <= i < |flags| ==> flags[i] == (i < |args| && args[i].Nil?)
  {
    seq(|args| + q, i => 0 <= i < |args| && args[i].Nil?)
  }

  /**
   The parameters: null bitmap, bound flag and, unless all arguments are nil, types
   and values. The bitmap has room for the attributes and their values are sent even
   without the capability.
   */
  function Params(args: seq<Arg>, qs: seq<Attribute>, capable: bool): (b: bytes)
    requires ArgsOk(args) && AttributesOk(qs)
  {
    var types := TypeBytes(Wires(args), capable) + (if capable then AttributeTypes(qs) else []);
    PackBits(Flags(args, |qs|)) +
    (if AllNil(args) then [0] else [1] + (types + (ValueBytes(Wires(args)) + AttributeValues(qs))))
  }

  /** The packet after its command byte. */
  function Packet(id: nat, args: seq<Arg>, qs: seq<Attribute>, capable: bool): (b: bytes)
    requires ArgsOk(args) && AttributesOk(qs) && |args| + |qs| < Pow256(8)
  {
    Head(id, |args|) +
    if |args| == 0 then []
    else (if capable then PutLengthEncodedInt(|args| + |qs|) else []) + Params(args, qs, capable)
  }

  /** The fixed part of the packet. */
  function Head(id: nat, n: nat): (h: bytes)
    ensures |h| == 9
  {
    LE(4, id) + [if n > 0 then 8 else 0] + [1, 0, 0, 0]
  }

  // ----- the server -----

  predicate IsText(tp: byte) {
    tp in {0, 7, 10, 11, 12, 14, 15, 16, 0xf2, 0xf6, 0xf7, 0xf8, 0xf9, 0xfa, 0xfb, 0xfc, 0xfd, 0xfe, 0xff}
  }

  function ReadInt(n: nat, unsigned: bool, rest: bytes): (r: Option<(Arg, bytes)>) {
    if |rest| < n then None
    else Some((if unsigned then Unsigned(n, FromLE(rest[..n]))
      else Signed(n, ToSigned(n, FromLE(rest[..n]))), rest[n..]))
  }

  function ReadText(tp: byte, rest: bytes): (r: Option<(Arg, bytes)>) {
    if |rest| < 1 then None
    else match LengthEncodedString(rest)
      case Some(Text(v, isNull, n)) => if n <= |rest| then Some((if isNull then Nil else Typed(tp, v), rest[n..]))
        else None
      case _ => None
  }

  /** The type switch of bindStmtArgs on a parameter that is not null; None is an error. */
  function ReadArg(tp: byte, unsigned: bool, rest: bytes): (r: Option<(Arg, bytes)>) {
    if tp == NULL then Some((Nil, rest))
    else if tp == TINY then ReadInt(1, unsigned, rest)
    else if tp == SHORT || tp == YEAR then ReadInt(2, unsigned, rest)
    else if tp == INT24 || tp == LONG then ReadInt(4, unsigned, rest)
    else if tp == LONGLONG then ReadInt(8, unsigned, rest)
    else if tp == FLOAT then (if |rest| < 4 then None else Some((Float32(FromLE(rest[..4])), rest[4..])))
    else if tp == DOUBLE then (if |rest| < 8 then None else Some((Float64(FromLE(rest[..8])), rest[8..])))
    else if IsText(tp) then ReadText(tp, rest)
    else None
  }

  function Then(a: Arg, r: Option<seq<Arg>>): (s: Option<seq<Arg>>) {
    if r.None? then None else Some([a] + r.value)
  }

  /** bindStmtArgs from parameter i on, with the values that are left. */
  function BindFrom(nulls: bytes, types: bytes, rest: bytes, n: nat, i: nat): (r: Option<seq<Arg>>)
    requires BitmapByteSize(n) <= |nulls| && |types| == 2 * n
    ensures r.Some? && i <= n ==> |r.value| == n - i
    decreases n - i
  {
    if i >= n then Some([])
    else if IsBitSet(nulls, i) then Then(Nil, BindFrom(nulls, types, rest, n, i + 1))
    else
      match ReadArg(types[2 * i], types[2 * i + 1] >= 128, rest)
      case None => None
      case Some((a, more)) => Then(a, BindFrom(nulls, types, more, n, i + 1))
  }

  /** What bindStmtArgs leaves in the statement, from parameter i on: an error keeps what was written before it. */
  function Written(nulls: bytes, types: bytes, rest: bytes, n: nat, i: nat, args: seq<Arg>): (r: seq<Arg>)
    requires BitmapByteSize(n) <= |nulls| && |types| == 2 * n && |args| == n
    ensures |r| == n
    decreases n - i
  {
    if i >= n then args
    else if IsBitSet(nulls, i) then Written(nulls, types, rest, n, i + 1, args[i := Nil])
    else
      match ReadArg(types[2 * i], types[2 * i + 1] >= 128, rest)
      case None => args
      case Some((a, more)) => Written(nulls, types, more, n, i + 1, args[i := a])
  }

  predicate HeadOk(data: bytes) { |data| >= 9 && data[4] / 16 == 0 && data[4] % 8 == 0 }

  /** Of the flags only the one for the parameter count is accepted. */
  lemma FlagsAre(data: bytes)
    ensures HeadOk(data) <==> |data| >= 9 && data[4] in {0, 8}
  {
  }

  /** The types that are read, in the numbers of the protocol: YEAR like SHORT, INT24 like LONG. */
  lemma ReadsAs(tp: byte, unsigned: bool, rest: bytes)
    ensures IsText(tp) <==> tp in {0, 7, 10, 11, 12, 14, 15, 16, 242} || tp >= 246
    ensures IsText(tp) ==> ReadArg(tp, unsigned, rest) == ReadText(tp, rest)
    ensures tp == 1 ==> ReadArg(tp, unsigned, rest) == ReadInt(1, unsigned, rest)
    ensures tp == 2 || tp == 13 ==> ReadArg(tp, unsigned, rest) == ReadInt(2, unsigned, rest)
    ensures tp == 3 || tp == 9 ==> ReadArg(tp, unsigned, rest) == ReadInt(4, unsigned, rest)
    ensures tp == 8 ==> ReadArg(tp, unsigned, rest) == ReadInt(8, unsigned, rest)
    ensures tp == 6 ==> ReadArg(tp, unsigned, rest) == Some((Nil, rest))
    ensures !IsText(tp) && tp !in {1, 2, 3, 4, 5, 6, 8, 9, 13} ==> ReadArg(tp, unsigned, rest) == None
  {
  }

  /** A text of the one byte 0xfb is NULL. */
  lemma NullText(tp: byte, unsigned: bool, rest: bytes)
    requires IsText(tp)
    ensures ReadArg(tp, unsigned, [251] + rest) == Some((Nil, rest))
  {
    assert ([251] + rest)[1..] == rest;
  }

  /** The packet holds types, so bindStmtArgs is called. */
  predicate Binds(data: bytes, n: nat) {
    var m := BitmapByteSize(n);
    HeadOk(data) && n > 0 && |data| >= 9 + m + 1 + 2 * n && data[9 + m] == 1
  }

  /** handleStmtExecute up to the call of the handler: the arguments it is given; None is an error. */
  function Handled(data: bytes, current: seq<Arg>): (r: Option<seq<Arg>>) {
    var n := |current|;
    var m := BitmapByteSize(n);
    if Binds(data, n) then
      BindFrom(data[9..9 + m], data[9 + m + 1..9 + m + 1 + 2 * n], data[9 + m + 1 + 2 * n..], n, 0)
    else if HeadOk(data) && (n == 0 || (|data| >= 9 + m + 1 && data[9 + m] != 1)) then Some(current)
    else None
  }

  /** The statement's arguments at that point. */
  function Bound(data: bytes, current: seq<Arg>): (r: seq<Arg>)
    ensures |r| == |current|
  {
    var n := |current|;
    var m := BitmapByteSize(n);
    if Binds(data, n) then
      Written(data[9..9 + m], data[9 + m + 1..9 + m + 1 + 2 * n], data[9 + m + 1 + 2 * n..], n, 0, current)
    else current
  }

  /** And once handleStmtExecute returns: only a handler that accepts the call leads to a reset. */
  function Left(data: bytes, current: seq<Arg>, accepted: bool): (r: seq<Arg>)
    ensures |r| == |current|
  {
    if Handled(data, current).Some? && accepted then Nils(|current|) else Bound(data, current)
  }

  /** A statement's arguments as ResetParams leaves them. */
  function Nils(n: nat): (args: seq<Arg>)
    ensures |args| == n
  {
    seq(n, _ => Nil)
  }

  // ----- the server reads what the client wrote -----

  /** Typed bytes must have a type that the server reads as a text. */
  predicate Bindable(args: seq<Arg>) { args == [] || ((args[0].Typed? ==> IsText(args[0].tp)) && Bindable(args[1..])) }

  lemma TakeDrop(a: bytes, rest: bytes)
    ensures (a + rest)[..|a|] == a && (a + rest)[|a|..] == rest
  {
  }

  lemma SignedRead(n: nat, i: int, rest: bytes)
    requires n > 0 && FitsSigned(n, i)
    ensures ReadInt(n, false, LE(n, ToUnsigned(n, i)) + rest) == Some((Signed(n, i), rest))
  {
    SignedRoundTrip(n, i);
    LittleEndianRoundTrip(n, ToUnsigned(n, i));
    TakeDrop(LE(n, ToUnsigned(n, i)), rest);
  }

  lemma UnsignedRead(n: nat, u: nat, rest: bytes)
    requires u < Pow256(n)
    ensures ReadInt(n, true, LE(n, u) + rest) == Some((Unsigned(n, u), rest))
    ensures FromLE((LE(n, u) + rest)[..n]) == u && (LE(n, u) + rest)[n..] == rest
  {
    LittleEndianRoundTrip(n, u);
    TakeDrop(LE(n, u), rest);
  }

  lemma TextRead(tp: byte, s: bytes, rest: bytes)
    requires |s| < Pow256(8)
    ensures ReadText(tp, TextBytes(s) + rest) == Some((Typed(tp, s), rest))
  {
    LengthEncodedStringRoundTrip(s, rest);
    TakeDrop(TextBytes(s), rest);
    assert |PutLengthEncodedInt(|s|)| >= 1;
  }

  lemma BoolRead(b: bool, rest: bytes)
    ensures ReadInt(1, false, [if b then 1 else 0] + rest) == Some((Signed(1, if b then 1 else 0), rest))
  {
    var x: byte := if b then 1 else 0;
    TakeDrop([x], rest);
    assert FromLE([x]) == x + 256 * FromLE([x][1..]) && [x][1..] == [];
    assert Pow256(1) == 256;
  }

  lemma TypeReads(tp: byte, n: nat, unsigned: bool, rest: bytes)
    ensures Width(n) ==> ReadArg(IntType(n), unsigned, rest) == ReadInt(n, unsigned, rest)
    ensures IsText(tp) ==> ReadArg(tp, unsigned, rest) == ReadText(tp, rest)
  {
  }

  lemma FloatReads(rest: bytes)
    ensures ReadArg(FLOAT, false, rest) == if |rest| < 4 then None else Some((Float32(FromLE(rest[..4])), rest[4..]))
    ensures ReadArg(DOUBLE, false, rest) == if |rest| < 8 then None else Some((Float64(FromLE(rest[..8])), rest[8..]))
  {
  }

  /** One argument that is a number. */
  lemma NumberRead(a: Arg, rest: bytes)
    requires ArgOk(a) && (a.Signed? || a.Unsigned? || a.Int? || a.Uint? || a.Bool?)
    ensures var w := WireOf(a); ReadArg(w.tp, w.flag >= 128, w.value + rest) == Some((Normal(a), rest))
  {
    var w := WireOf(a);
    TypeReads(w.tp, if a.Signed?
      || a.Unsigned? then a.width else if a.Bool? then 1 else 8, w.flag >= 128, w.value + rest);
    match a {
      case Signed(n, i) => SignedRead(n, i, rest);
      case Unsigned(n, u) => UnsignedRead(n, u, rest);
      case Int(i) => SignedRead(8, i, rest);
      case Uint(u) => UnsignedRead(8, u, rest);
      case Bool(b) => BoolRead(b, rest);
    }
  }

  /** One argument. */
  lemma ArgRead(a: Arg, rest: bytes)
    requires ArgOk(a) && !a.Other? && !a.Nil? && (a.Typed? ==> IsText(a.tp))
    ensures var w := WireOf(a); ReadArg(w.tp, w.flag >= 128, w.value + rest) == Some((Normal(a), rest))
  {
    if a.Float32? {
      UnsignedRead(4, a.u, rest);
      FloatReads(LE(4, a.u) + rest);
    } else if a.Float64? {
      UnsignedRead(8, a.u, rest);
      FloatReads(LE(8, a.u) + rest);
    } else if a.Str? || a.Raw? || a.Json? || a.Typed? {
      var tp := if a.Typed? then a.tp else STRING;
      TextRead(tp, a.s, rest);
      TypeReads(tp, 0, false, TextBytes(a.s) + rest);
    } else {
      NumberRead(a, rest);
    }
  }

  lemma TypeStep(ws: seq<Wire>)
    requires ws != []
    ensures TypeBytes(ws, false) == [ws[0].tp, ws[0].flag] + TypeBytes(ws[1..], false)
  {
    ConcatEmpty([ws[0].tp, ws[0].flag]);
  }

  lemma PairAt(x: byte, y: byte, rest: bytes, i: nat)
    requires 2 * i + 1 < 2 + |rest|
    ensures var s := [x, y] + rest;
      if i == 0 then s[2 * i] == x && s[2 * i + 1] == y
      else s[2 * i] == rest[2 * (i - 1)] && s[2 * i + 1] == rest[2 * (i - 1) + 1]
  {
  }

  lemma {:induction false} OkAt(args: seq<Arg>, i: nat)
    requires ArgsOk(args) && i < |args|
    ensures ArgOk(args[i]) && !args[i].Other?
  {
    if i > 0 { OkAt(args[1..], i - 1); }
  }

  lemma {:induction false} WireAt(args: seq<Arg>, i: nat)
    requires ArgsOk(args) && i < |args|
    ensures ArgOk(args[i]) && !args[i].Other? && Wires(args)[i] == WireOf(args[i])
    decreases |args|
  {
    OkAt(args, i);
    if i > 0 { WireAt(args[1..], i - 1); }
  }

  lemma {:induction false} PairOf(ws: seq<Wire>, i: nat, types: bytes)
    requires i < |ws| && types == TypeBytes(ws, false)
    ensures |types| == 2 * |ws| && types[2 * i] == ws[i].tp && types[2 * i + 1] == ws[i].flag
    decreases |ws|
  {
    TypeStep(ws);
    var rest := TypeBytes(ws[1..], false);
    if i > 0 { PairOf(ws[1..], i - 1, rest); }
    PairAt(ws[0].tp, ws[0].flag, rest, i);
  }

  lemma {:induction false} BindableAt(args: seq<Arg>, i: nat)
    requires Bindable(args) && i < |args|
    ensures args[i].Typed? ==> IsText(args[i].tp)
  {
    if i > 0 { BindableAt(args[1..], i - 1); }
  }

  /** The server sees which arguments are nil. */
  ghost predicate NullsSeen(nulls: bytes, args: seq<Arg>) {
    |nulls| >= BitmapByteSize(|args|) && forall i :: 0 <= i < |args| ==> IsBitSet(nulls, i) == args[i].Nil?
  }

  lemma {:induction false} BindRead(args: seq<Arg>, ws: seq<Wire>, nulls: bytes, types: bytes, rest: bytes,
                                    extra: bytes, i: nat)
    requires ArgsOk(args) && Bindable(args) && i <= |args| && NullsSeen(nulls, args)
    requires ws == Wires(args) && types == TypeBytes(ws, false) && rest == ValueBytes(ws[i..]) + extra
    ensures BindFrom(nulls, types, rest, |args|, i) == Some(NormalAll(args[i..]))
    decreases |args| - i
  {
    if i < |args| {
      var a, more := args[i], ValueBytes(ws[i + 1..]);
      assert args[i..][1..] == args[i + 1..] && args[i..][0] == a;
      assert ws[i..][1..] == ws[i + 1..] && ws[i..][0] == ws[i];
      WireAt(args, i);
      PairOf(ws, i, types);
      BindableAt(args, i);
      if a.Nil? {
        assert [] + more == more;
        BindRead(args, ws, nulls, types, rest, extra, i + 1);
      } else {
        ConcatAssoc(ws[i].value, more, extra);
        ArgRead(a, more + extra);
        BindRead(args, ws, nulls, types, more + extra, extra, i + 1);
      }
    }
  }

  lemma {:induction false} NormalAt(args: seq<Arg>, i: nat)
    requires i < |args|
    ensures |NormalAll(args)| == |args| && NormalAll(args)[i] == Normal(args[i])
    decreases |args|
  {
    if |args| > 1 {
      NormalAt(args[1..], if i == 0 then 0 else i - 1);
    } else {
      assert args[1..] == [];
    }
  }

  /** Arguments that are all nil are what a reset leaves, and no others are. */
  lemma {:induction false} NilsAreReset(args: seq<Arg>)
    ensures NormalAll(args) == Nils(|args|) <==> AllNil(args)
  {
    if args != [] {
      NilsAreReset(args[1..]);
      assert Nils(|args|) == [Nil] + Nils(|args| - 1);
      assert NormalAll(args)[1..] == NormalAll(args[1..]) && Nils(|args|)[1..] == Nils(|args| - 1);
    }
  }

  /** One turn of the loop in bindStmtArgs: the argument, and the values that are left. */
  function Turn(nulls: bytes, types: bytes, rest: bytes, i: nat): (r: Option<(Arg, bytes)>)
    requires i < 8 * |nulls| && 2 * i + 1 < |types|
  {
    if IsBitSet(nulls, i) then Some((Nil, rest)) else ReadArg(types[2 * i], types[2 * i + 1] >= 128, rest)
  }

  lemma BindTurn(nulls: bytes, types: bytes, rest: bytes, n: nat, i: nat)
    requires BitmapByteSize(n) <= |nulls| && |types| == 2 * n && i < n
    ensures var r := Turn(nulls, types, rest, i);
      BindFrom(nulls, types, rest, n, i)
      == if r.None? then None else Then(r.value.0, BindFrom(nulls, types, r.value.1, n, i + 1))
  {
  }

  lemma NotTextHere(nulls: bytes, types: bytes, rest: bytes, j: nat)
    requires j < 8 * |nulls| && 2 * j + 1 < |types| && !IsBitSet(nulls, j) && !IsText(types[2 * j])
    ensures var r := Turn(nulls, types, rest, j); r.Some? ==> !r.value.0.Typed?
  {
  }

  lemma {:induction false} NotText(nulls: bytes, types: bytes, rest: bytes, n: nat, i: nat, j: nat)
    requires BitmapByteSize(n) <= |nulls| && |types| == 2 * n && i <= j < n
    requires !IsBitSet(nulls, j) && !IsText(types[2 * j])
    requires BindFrom(nulls, types, rest, n, i).Some?
    ensures !BindFrom(nulls, types, rest, n, i).value[j - i].Typed?
    decreases n - i
  {
    BindTurn(nulls, types, rest, n, i);
    if i < j {
      NotText(nulls, types, Turn(nulls, types, rest, i).value.1, n, i + 1, j);
    } else {
      NotTextHere(nulls, types, rest, j);
    }
  }

  lemma {:induction false} FirstUnbindable(args: seq<Arg>) returns (j: nat)
    requires !Bindable(args)
    ensures j < |args| && args[j].Typed? && !IsText(args[j].tp)
  {
    j := 0;
    if !(args[0].Typed? && !IsText(args[0].tp)) {
      j := FirstUnbindable(args[1..]);
      j := j + 1;
    }
  }

  lemma BoundCross(args: seq<Arg>, ws: seq<Wire>, nulls: bytes, types: bytes, values: bytes, extra: bytes)
    requires ArgsOk(args) && NullsSeen(nulls, args) && ws == Wires(args)
    requires types == TypeBytes(ws, false) && values == ValueBytes(ws) + extra
    ensures BindFrom(nulls, types, values, |args|, 0) == Some(NormalAll(args)) <==> Bindable(args)
  {
    assert args[0..] == args && ws[0..] == ws;
    if Bindable(args) {
      BindRead(args, ws, nulls, types, values, extra, 0);
    } else {
      var j := FirstUnbindable(args);
      WireAt(args, j);
      PairOf(ws, j, types);
      NormalAt(args, j);
      if BindFrom(nulls, types, values, |args|, 0).Some? { NotText(nulls, types, values, |args|, 0, j); }
    }
  }

  // ----- what the server sees of a packet -----

  lemma HeadRead(id: nat, n: nat, body: bytes)
    ensures var d := Head(id, n) + body; HeadOk(d) && d[9..] == body
  {
    var d := Head(id, n) + body;
    assert d[4] == if n > 0 then 8 else 0;
  }

  /** The bitmap a server expects is the front of what the client sends; what is left of it is zero. */
  lemma FrontOfBitmap(args: seq<Arg>, q: nat, nulls: bytes)
    requires nulls == PackBits(Flags(args, q))
    ensures BitmapByteSize(|args|) <= |nulls| && NullsSeen(nulls[..BitmapByteSize(|args|)], args)
    ensures |nulls| > BitmapByteSize(|args|) ==> nulls[BitmapByteSize(|args|)] == 0
  {
    var m, flags := BitmapByteSize(|args|), Flags(args, q);
    forall i | 0 <= i < |args| ensures IsBitSet(nulls[..m], i) == args[i].Nil? { PackedBit(flags, i); }
    if |nulls| > m { NoFlags(flags, 8 * m, 8); }
  }

  lemma {:induction false} NoFlags(flags: seq<bool>, i: nat, width: nat)
    requires forall j :: i <= j < |flags| ==> !flags[j]
    ensures PackFrom(flags, i, width) == 0
    decreases width
  {
    if width > 0 && i < |flags| { NoFlags(flags, i + 1, width - 1); }
  }

  /** The client's bitmap is longer than the one the server expects. */
  predicate Spills(n: nat, q: nat) { BitmapByteSize(n + q) > BitmapByteSize(n) }

  /** No types are seen: the handler is given what the statement holds. */
  predicate Bare(args: seq<Arg>, q: nat) { AllNil(args) || Spills(|args|, q) }

  lemma BareHandled(d: bytes, current: seq<Arg>, m: nat)
    requires HeadOk(d) && |current| > 0 && m == BitmapByteSize(|current|) && |d| >= 9 + m + 1 && d[9 + m] == 0
    ensures Handled(d, current) == Some(current) && Bound(d, current) == current
  {
  }

  lemma BareSeen(id: nat, args: seq<Arg>, qs: seq<Attribute>, current: seq<Arg>)
    requires ArgsOk(args) && AttributesOk(qs) && |args| + |qs| < Pow256(8) && |current| == |args| && Bare(args, |qs|)
    ensures var d := Packet(id, args, qs, false); Handled(d, current) == Some(current) && Bound(d, current) == current
  {
    PacketIs(id, args, qs);
    if args == [] {
      NoneAfterHead(id, current);
    } else {
      BareBody(args, qs, BitmapByteSize(|args|));
      BareAfterHead(id, Params(args, qs, false), current, BitmapByteSize(|args|));
    }
  }

  lemma PacketIs(id: nat, args: seq<Arg>, qs: seq<Attribute>)
    requires ArgsOk(args) && AttributesOk(qs) && |args| + |qs| < Pow256(8)
    ensures Packet(id, args, qs, false) == Head(id, |args|) + if args == [] then [] else Params(args, qs, false)
  {
    assert [] + Params(args, qs, false) == Params(args, qs, false);
  }

  lemma NoneAfterHead(id: nat, current: seq<Arg>)
    requires current == []
    ensures var d := Head(id, 0) + []; Handled(d, current) == Some(current) && Bound(d, current) == current
  {
    HeadRead(id, 0, []);
  }

  lemma BareAfterHead(id: nat, body: bytes, current: seq<Arg>, m: nat)
    requires |current| > 0 && m == BitmapByteSize(|current|) && |body| >= m + 1 && body[m] == 0
    ensures var d := Head(id, |current|) + body; Handled(d, current) == Some(current) && Bound(d, current) == current
  {
    var d := Head(id, |current|) + body;
    HeadRead(id, |current|, body);
    assert d[9 + m] == d[9..][m];
    BareHandled(d, current, m);
  }

  lemma BareBody(args: seq<Arg>, qs: seq<Attribute>, m: nat)
    requires ArgsOk(args) && AttributesOk(qs) && Bare(args, |qs|) && m == BitmapByteSize(|args|)
    ensures var body := Params(args, qs, false); |body| >= m + 1 && body[m] == 0
  {
    var nulls := PackBits(Flags(args, |qs|));
    FrontOfBitmap(args, |qs|, nulls);
    FirstOfRest(nulls, Params(args, qs, false)[|nulls|..], m);
  }

  lemma FirstOfRest(nulls: bytes, rest: bytes, m: nat)
    requires m <= |nulls|
    ensures |nulls| > m ==> (nulls + rest)[m] == nulls[m]
    ensures |nulls| == m && rest != [] ==> (nulls + rest)[m] == rest[0]
  {
  }

  /** Where the parts of the parameters lie. */
  lemma PartsLie(h: bytes, nulls: bytes, types: bytes, values: bytes, n: nat, t: nat, d: bytes)
    requires |h| == 9 && |nulls| == n && |types| == t && d == h + (nulls + ([1] + (types + values)))
    ensures |d| >= 9 + n + 1 + t && d[9..9 + n] == nulls && d[9 + n] == 1
    ensures d[9 + n + 1..9 + n + 1 + t] == types && d[9 + n + 1 + t..] == values
  {
    assert d == h + nulls + [1] + types + values;
    Middle(h, nulls, [1] + types + values);
    assert d == h + nulls + ([1] + types + values);
    Middle(h + nulls, [1], types + values);
    assert d == (h + nulls) + [1] + (types + values);
    Middle(h + nulls + [1], types, values);
  }

  lemma PartsHandled(d: bytes, current: seq<Arg>, nulls: bytes, types: bytes, values: bytes, n: nat, t: nat)
    requires HeadOk(d) && |current| > 0 && n == BitmapByteSize(|current|) == |nulls| && t == |types| == 2 * |current|
    requires |d| >= 9 + n + 1 + t && d[9 + n] == 1
    requires d[9..9 + n] == nulls && d[9 + n + 1..9 + n + 1 + t] == types && d[9 + n + 1 + t..] == values
    ensures Handled(d, current) == BindFrom(nulls, types, values, |current|, 0)
  {
  }

  lemma TypedPacket(id: nat, args: seq<Arg>, qs: seq<Attribute>, nulls: bytes, types: bytes, values: bytes)
    requires ArgsOk(args) && AttributesOk(qs) && |args| + |qs| < Pow256(8) && !AllNil(args)
    requires nulls == PackBits(Flags(args, |qs|)) && types == TypeBytes(Wires(args), false)
    requires values == ValueBytes(Wires(args)) + AttributeValues(qs)
    ensures Packet(id, args, qs, false) == Head(id, |args|) + (nulls + ([1] + (types + values)))
  {
    ConcatEmpty(types);
    assert [] + Params(args, qs, false) == Params(args, qs, false);
  }

  lemma TypedSeen(id: nat, args: seq<Arg>, qs: seq<Attribute>, current: seq<Arg>, nulls: bytes, types: bytes,
                  values: bytes)
    requires ArgsOk(args) && AttributesOk(qs) && |args| + |qs| < Pow256(8) && |current| == |args| && !Bare(args, |qs|)
    requires nulls == PackBits(Flags(args, |qs|)) && types == TypeBytes(Wires(args), false)
    requires values == ValueBytes(Wires(args)) + AttributeValues(qs)
    ensures NullsSeen(nulls, args)
    ensures Handled(Packet(id, args, qs, false), current) == BindFrom(nulls, types, values, |args|, 0)
  {
    TypedPacket(id, args, qs, nulls, types, values);
    FrontOfBitmap(args, |qs|, nulls);
    assert nulls[..|nulls|] == nulls;
    LaidOut(id, current, nulls, types, values);
  }

  lemma LaidOut(id: nat, current: seq<Arg>, nulls: bytes, types: bytes, values: bytes)
    requires |current| > 0 && |nulls| == BitmapByteSize(|current|) && |types| == 2 * |current|
    ensures Handled(Head(id, |current|) + (nulls + ([1] + (types + values))), current)
         == BindFrom(nulls, types, values, |current|, 0)
  {
    var h, body := Head(id, |current|), nulls + ([1] + (types + values));
    HeadRead(id, |current|, body);
    BodyLaidOut(h, current, nulls, types, values, h + body);
  }

  lemma BodyLaidOut(h: bytes, current: seq<Arg>, nulls: bytes, types: bytes, values: bytes, d: bytes)
    requires |h| == 9 && |current| > 0 && |nulls| == BitmapByteSize(|current|) && |types| == 2 * |current|
    requires d == h + (nulls + ([1] + (types + values))) && HeadOk(d)
    ensures Handled(d, current) == BindFrom(nulls, types, values, |current|, 0)
  {
    PartsLie(h, nulls, types, values, |nulls|, |types|, d);
    PartsHandled(d, current, nulls, types, values, |nulls|, |types|);
  }

  // ----- one execution -----

  /** One call crosses the wire: what the statement holds decides when no types are seen. */
  predicate Crosses(args: seq<Arg>, q: nat, held: seq<Arg>) {
    if Bare(args, q) then held == NormalAll(args) else Bindable(args)
  }

  /**
   Whatever the statement holds and whatever attributes are set, the handler is given
   the client's arguments, up to the types the server knows, exactly in these cases:
   with types seen, when typed bytes have a type that the server reads as a text;
   without, when the statement happens to hold the arguments already. Arguments that
   are all nil need a statement that was reset.
   */
  lemma ArgumentsCross(id: nat, args: seq<Arg>, qs: seq<Attribute>, current: seq<Arg>)
    requires ArgsOk(args) && AttributesOk(qs) && |args| + |qs| < Pow256(8) && |current| == |args|
    ensures Handled(Packet(id, args, qs, false), current) == Some(NormalAll(args)) <==> Crosses(args, |qs|, current)
    ensures AllNil(args) ==> (Crosses(args, |qs|, current) <==> current == Nils(|args|))
  {
    NilsAreReset(args);
    if Bare(args, |qs|) {
      BareSeen(id, args, qs, current);
    } else {
      var nulls, types := PackBits(Flags(args, |qs|)), TypeBytes(Wires(args), false);
      var values := ValueBytes(Wires(args)) + AttributeValues(qs);
      TypedSeen(id, args, qs, current, nulls, types, values);
      BoundCross(args, Wires(args), nulls, types, values, AttributeValues(qs));
    }
  }

  /** A statement that was reset and no attributes: only the types of typed bytes matter. */
  lemma ResetStatementCrosses(args: seq<Arg>)
    ensures Crosses(args, 0, Nils(|args|)) <==> Bindable(args)
  {
    NilsAreReset(args);
    if AllNil(args) { NilsBind(args); }
  }

  lemma {:induction false} NilsBind(args: seq<Arg>)
    requires AllNil(args)
    ensures Bindable(args)
  {
    if args != [] { NilsBind(args[1..]); }
  }

  /** Eight arguments and one attribute: the bitmap spills, and after a reset the handler is given nils. */
  lemma AttributeSpills(id: nat, name: bytes, x: byte)
    requires |name| < Pow256(8) && x < 128
    ensures var args, qs := seq(8, _ => Unsigned(1, x)), [Attribute(name, Unsupported)];
      && ArgsOk(args) && AttributesOk(qs) && |args| + |qs| < Pow256(8) && Bindable(args)
      && Handled(Packet(id, args, qs, false), Nils(8)) == Some(Nils(8))
  {
    var args: seq<Arg>, qs := seq(8, _ => Unsigned(1, x)), [Attribute(name, Unsupported)];
    assert Pow256(1) == 256 && Pow256(8) == 0x1_0000_0000_0000_0000;
    SameArgs(8, Unsigned(1, x), args);
    assert qs[1..] == [];
    BareSeen(id, args, qs, Nils(8));
  }

  lemma {:induction false} SameArgs(n: nat, a: Arg, args: seq<Arg>)
    requires ArgOk(a) && !a.Other? && !a.Typed? && args == seq(n, _ => a)
    ensures ArgsOk(args) && Bindable(args)
  {
    if n > 0 {
      assert args[1..] == seq(n - 1, _ => a);
      SameArgs(n - 1, a, args[1..]);
    }
  }

  // ----- a statement over its whole life -----

  /** What a client asks of one statement, and whether the handler accepts the call. */
  datatype Command = Execute(args: seq<Arg>, qs: seq<Attribute>, accepted: bool) | Reset

  predicate CommandOk(c: Command, n: nat) {
    c.Execute? ==> ArgsOk(c.args) && AttributesOk(c.qs) && |c.args| == n && n + |c.qs| < Pow256(8)
  }

  predicate CommandsOk(cs: seq<Command>, n: nat) { cs == [] || (CommandOk(cs[0], n) && CommandsOk(cs[1..], n)) }

  /** What the statement holds after a command. */
  function After(id: nat, c: Command, current: seq<Arg>): (r: seq<Arg>)
    requires CommandOk(c, |current|)
    ensures |r| == |current|
  {
    match c
    case Reset => Nils(|current|)
    case Execute(args, qs, accepted) => Left(Packet(id, args, qs, false), current, accepted)
  }

  /** Every execution of the run gives the handler the client's arguments. */
  predicate AllCross(id: nat, cs: seq<Command>, current: seq<Arg>)
    requires CommandsOk(cs, |current|)
    decreases |cs|
  {
    cs != [] ==>
      && (cs[0].Execute? ==> Handled(Packet(id, cs[0].args, cs[0].qs, false), current) == Some(NormalAll(cs[0].args)))
      && AllCross(id, cs[1..], After(id, cs[0], current))
  }

  /**
   What the client can tell: after an accepted call or a reset the statement holds nils, after
   a refused call its arguments.
   */
  predicate Foreseen(cs: seq<Command>, held: seq<Arg>)
    decreases |cs|
  {
    cs == [] ||
    match cs[0]
    case Reset => Foreseen(cs[1..], Nils(|held|))
    case Execute(args, qs, accepted) =>
      Crosses(args, |qs|, held) && Foreseen(cs[1..], if accepted then Nils(|held|) else NormalAll(args))
  }

  lemma {:induction false} WrittenIsBound(nulls: bytes, types: bytes, rest: bytes, n: nat, i: nat, args: seq<Arg>)
    requires BitmapByteSize(n) <= |nulls| && |types| == 2 * n && |args| == n && i <= n
    requires BindFrom(nulls, types, rest, n, i).Some?
    ensures Written(nulls, types, rest, n, i, args) == args[..i] + BindFrom(nulls, types, rest, n, i).value
    decreases n - i
  {
    if i < n {
      var r := if IsBitSet(nulls, i) then (Nil, rest) else ReadArg(types[2 * i], types[2 * i + 1] >= 128, rest).value;
      var next := args[i := r.0];
      WrittenIsBound(nulls, types, r.1, n, i + 1, next);
      assert next[..i + 1] == args[..i] + [r.0];
      ConcatAssoc(args[..i], [r.0], BindFrom(nulls, types, r.1, n, i + 1).value);
    } else {
      assert args[..n] == args;
      ConcatEmpty(args);
    }
  }

  lemma TurnOfPrefix(nulls: bytes, types: bytes, rest: bytes, i: nat, k: nat)
    requires i < k && BitmapByteSize(k) <= |nulls| && 2 * k <= |types|
    ensures var r := Turn(nulls, types, rest, i);
      BindFrom(nulls, types[..2 * k], rest, k, i)
      == if r.None? then None else Then(r.value.0, BindFrom(nulls, types[..2 * k], r.value.1, k, i + 1))
  {
  }

  lemma TurnWrites(nulls: bytes, types: bytes, rest: bytes, n: nat, i: nat, args: seq<Arg>)
    requires BitmapByteSize(n) <= |nulls| && |types| == 2 * n && |args| == n && i < n
    ensures var r := Turn(nulls, types, rest, i);
      Written(nulls, types, rest, n, i, args)
      == if r.None? then args else Written(nulls, types, r.value.1, n, i + 1, args[i := r.value.0])
  {
  }

  lemma OneMoreWritten(args: seq<Arg>, i: nat, a: Arg, tail: Option<seq<Arg>>, j: nat, w: seq<Arg>)
    requires i < j <= |args| && tail.Some? && w == args[i := a][..i + 1] + tail.value + args[i := a][j..]
    ensures Then(a, tail).Some? && w == args[..i] + Then(a, tail).value + args[j..]
  {
    assert w == args[..i] + ([a] + tail.value) + args[j..];
  }

  /** Argument i cannot be read. */
  lemma FailsHere(nulls: bytes, types: bytes, rest: bytes, n: nat, i: nat, args: seq<Arg>)
    requires BitmapByteSize(n) <= |nulls| && |types| == 2 * n && |args| == n && i < n
    requires Turn(nulls, types, rest, i).None?
    ensures BindFrom(nulls, types[..2 * (i + 1)], rest, i + 1, i).None?
    ensures BindFrom(nulls, types[..2 * i], rest, i, i) == Some([])
    ensures Written(nulls, types, rest, n, i, args) == args[..i] + [] + args[i..]
  {
    TurnOfPrefix(nulls, types, rest, i, i + 1);
    TurnWrites(nulls, types, rest, n, i, args);
    assert args[..i] + [] + args[i..] == args;
  }

  /** Argument i can be read, and of those after it j is the first that cannot. */
  lemma FailsLater(nulls: bytes, types: bytes, rest: bytes, n: nat, i: nat, args: seq<Arg>, j: nat, a: Arg, more: bytes)
    requires BitmapByteSize(n) <= |nulls| && |types| == 2 * n && |args| == n && i < j < n
    requires Turn(nulls, types, rest, i) == Some((a, more))
    requires BindFrom(nulls, types[..2 * (j + 1)], more, j + 1, i + 1).None?
    requires var read := BindFrom(nulls, types[..2 * j], more, j, i + 1);
      && read.Some?
      && Written(nulls, types, more, n, i + 1, args[i := a]) == args[i := a][..i + 1] + read.value + args[i := a][j..]
    ensures BindFrom(nulls, types[..2 * (j + 1)], rest, j + 1, i).None?
    ensures var read := BindFrom(nulls, types[..2 * j], rest, j, i);
      read.Some? && Written(nulls, types, rest, n, i, args) == args[..i] + read.value + args[j..]
  {
    TurnWrites(nulls, types, rest, n, i, args);
    TurnOfPrefix(nulls, types, rest, i, j);
    TurnOfPrefix(nulls, types, rest, i, j + 1);
    var tail := BindFrom(nulls, types[..2 * j], more, j, i + 1);
    OneMoreWritten(args, i, a, tail, j, Written(nulls, types, rest, n, i, args));
  }

  /** Binding that fails writes the arguments before the first it cannot read, and keeps the others. */
  lemma {:induction false} FailedBinding(nulls: bytes, types: bytes, rest: bytes, n: nat, i: nat, args: seq<Arg>)
    returns (j: nat)
    requires BitmapByteSize(n) <= |nulls| && |types| == 2 * n && |args| == n && i <= n
    requires BindFrom(nulls, types, rest, n, i).None?
    ensures i <= j < n && BindFrom(nulls, types[..2 * (j + 1)], rest, j + 1, i).None?
    ensures var read := BindFrom(nulls, types[..2 * j], rest, j, i);
      read.Some? && Written(nulls, types, rest, n, i, args) == args[..i] + read.value + args[j..]
    decreases n - i
  {
    BindTurn(nulls, types, rest, n, i);
    if Turn(nulls, types, rest, i).None? {
      j := i;
      FailsHere(nulls, types, rest, n, i, args);
    } else {
      var (a, more) := Turn(nulls, types, rest, i).value;
      j := FailedBinding(nulls, types, more, n, i + 1, args[i := a]);
      FailsLater(nulls, types, rest, n, i, args, j, a, more);
    }
  }

  /** The handler is given what the statement holds. */
  lemma HandledIsBound(data: bytes, current: seq<Arg>)
    requires Handled(data, current).Some?
    ensures Bound(data, current) == Handled(data, current).value
  {
    var n := |current|;
    var m := BitmapByteSize(n);
    if Binds(data, n) {
      var nulls, types, values := data[9..9 + m], data[9 + m + 1..9 + m + 1 + 2 * n], data[9 + m + 1 + 2 * n..];
      WrittenIsBound(nulls, types, values, n, 0, current);
      assert current[..0] + BindFrom(nulls, types, values, n, 0).value == BindFrom(nulls, types, values, n, 0).value;
    }
  }

  /**
   Over the whole life of a statement, every execution gives the handler the client's
   arguments exactly when the client could foresee it from its own calls and their outcomes.
   */
  lemma {:induction false} EveryCallCrosses(id: nat, cs: seq<Command>, current: seq<Arg>)
    requires CommandsOk(cs, |current|)
    ensures AllCross(id, cs, current) <==> Foreseen(cs, current)
    decreases |cs|
  {
    if cs != [] {
      var c := cs[0];
      EveryCallCrosses(id, cs[1..], After(id, c, current));
      if c.Execute? {
        ArgumentsCross(id, c.args, c.qs, current);
        var d := Packet(id, c.args, c.qs, false);
        if Handled(d, current) == Some(NormalAll(c.args)) { HandledIsBound(d, current); }
      }
    }
  }

  /** No call is refused, no attributes are set and typed bytes have a type that is read as a text. */
  predicate Plain(cs: seq<Command>) {
    cs == [] || ((cs[0].Execute? ==> cs[0].accepted && cs[0].qs == [] && Bindable(cs[0].args)) && Plain(cs[1..]))
  }

  /** Then every execution crosses. */
  lemma {:induction false} PlainRunsCross(id: nat, n: nat, cs: seq<Command>)
    requires CommandsOk(cs, n) && Plain(cs)
    ensures AllCross(id, cs, Nils(n))
  {
    PlainIsForeseen(n, cs);
    EveryCallCrosses(id, cs, Nils(n));
  }

  lemma {:induction false} PlainIsForeseen(n: nat, cs: seq<Command>)
    requires CommandsOk(cs, n) && Plain(cs)
    ensures Foreseen(cs, Nils(n))
  {
    if cs != [] {
      if cs[0].Execute? { ResetStatementCrosses(cs[0].args); }
      PlainIsForeseen(n, cs[1..]);
    }
  }

  /** A refused call with one argument, then a call with nil: the handler is given the first argument again. */
  lemma StaleArgument(id: nat, x: Arg)
    requires ArgOk(x) && !x.Other? && !x.Nil? && Bindable([x])
    ensures var refused, nil := Execute([x], [], false), Execute([Nil], [], true);
      && CommandsOk([refused, nil], 1)
      && After(id, refused, Nils(1)) == [Normal(x)]
      && Handled(Packet(id, [Nil], [], false), [Normal(x)]) == Some([Normal(x)])
  {
    assert Pow256(8) == 0x1_0000_0000_0000_0000;
    assert [x][1..] == [] && [Nil][1..] == [];
    var refused, nil := Execute([x], [], false), Execute([Nil], [], true);
    assert [refused, nil][1..] == [nil] && [nil][1..] == [];
    var d := Packet(id, [x], [], false);
    ArgumentsCross(id, [x], [], Nils(1));
    assert NormalAll([x]) == [Normal(x)];
    HandledIsBound(d, Nils(1));
    BareSeen(id, [Nil], [], [Normal(x)]);
  }

  // ----- Stmt.write -----

  /** Stmt.write: loops that fill the null bitmap and the type, flag and value of each parameter; None is an error. */
  method Write(id: nat, params: nat, args: seq<Arg>, qs: seq<Attribute>, capable: bool) returns (r: Option<bytes>)
    requires (forall i :: 0 <= i < |args| ==> ArgOk(args[i])) && AttributesOk(qs) && |args| + |qs| < Pow256(8)
    ensures r.Some? <==> |args| == params && ArgsOk(args)
    ensures r.Some? ==> r.value == Packet(id, args, qs, capable)
  {
    if |args| != params { return None; }
    var ok, nulls, bound, types, values := FillParams(args, |qs|, capable);
    if !ok { return None; }
    var attributeTypes, attributeValues := FillAttributes(qs);
    types, values := types + (if capable then attributeTypes else []), values + attributeValues;
    var count := if capable then PutLengthEncodedInt(params + |qs|) else [];
    var data := LE(4, id) + [if params > 0 then 8 else 0] + [1, 0, 0, 0];
    if params > 0 { data := data + (count + JoinParams(nulls, bound, types, values)); }
    PacketWritten(id, args, qs, capable, nulls, bound, types, values, count, data);
    r := Some(data);
  }

  lemma PacketWritten(id: nat, args: seq<Arg>, qs: seq<Attribute>, capable: bool, nulls: bytes, bound: byte,
                      types: bytes,
                      values: bytes, count: bytes, data: bytes)
    requires ArgsOk(args) && AttributesOk(qs) && |args| + |qs| < Pow256(8)
    requires nulls == PackBits(Flags(args, |qs|)) && bound == (if AllNil(args) then 0 else 1)
    requires types == TypeBytes(Wires(args), capable) + if capable then AttributeTypes(qs) else []
    requires values == ValueBytes(Wires(args)) + AttributeValues(qs)
    requires count == if capable then PutLengthEncodedInt(|args| + |qs|) else []
    requires |args| == 0 ==> data == Head(id, 0)
    requires |args| > 0 ==> data == Head(id, |args|) + (count + JoinParams(nulls, bound, types, values))
    ensures data == Packet(id, args, qs, capable)
  {
    ConcatEmpty(Head(id, |args|));
    BodyIsParams(args, qs, capable, nulls, bound, types, values);
  }

  /** The order the buffers are written in. */
  function JoinParams(nulls: bytes, bound: byte, types: bytes, values: bytes): (b: bytes) {
    nulls + [bound] + if bound == 1 then types + values else []
  }

  lemma BodyIsParams(args: seq<Arg>, qs: seq<Attribute>, capable: bool, nulls: bytes, bound: byte, types: bytes,
                     values: bytes)
    requires ArgsOk(args) && AttributesOk(qs)
    requires nulls == PackBits(Flags(args, |qs|)) && bound == (if AllNil(args) then 0 else 1)
    requires types == TypeBytes(Wires(args), capable) + if capable then AttributeTypes(qs) else []
    requires values == ValueBytes(Wires(args)) + AttributeValues(qs)
    ensures JoinParams(nulls, bound, types, values) == Params(args, qs, capable)
  {
    if bound == 1 {
      ConcatAssoc(nulls, [1], types + values);
    } else {
      ConcatEmpty(nulls + [bound]);
    }
  }

  lemma {:induction false} AppendAttribute(qs: seq<Attribute>, q: Attribute)
    requires AttributesOk(qs) && AttributeOk(q)
    ensures AttributesOk(qs + [q])
    ensures AttributeTypes(qs + [q]) == AttributeTypes(qs) + AttributeType(q)
    ensures AttributeValues(qs + [q]) == AttributeValues(qs) + AttributeBytes(q)
    decreases |qs|
  {
    if qs == [] {
      assert [] + [q] == [q] && [q][1..] == [];
      ConcatEmpty(AttributeType(q));
      ConcatEmpty(AttributeBytes(q));
      assert [] + AttributeType(q) == AttributeType(q) && [] + AttributeBytes(q) == AttributeBytes(q);
    } else {
      AppendAttribute(qs[1..], q);
      DropConcat(qs, [q], 1);
      ConcatAssoc(AttributeType(qs[0]), AttributeTypes(qs[1..]), AttributeType(q));
      ConcatAssoc(AttributeBytes(qs[0]), AttributeValues(qs[1..]), AttributeBytes(q));
    }
  }

  lemma {:induction false} AttributeAt(qs: seq<Attribute>, i: nat)
    requires AttributesOk(qs) && i < |qs|
    ensures AttributeOk(qs[i])
  {
    if i > 0 { AttributeAt(qs[1..], i - 1); }
  }

  ghost predicate AttributesFilled(qs: seq<Attribute>, i: nat, types: bytes, values: bytes) {
    i <= |qs| && AttributesOk(qs[..i]) && types == AttributeTypes(qs[..i]) && values == AttributeValues(qs[..i])
  }

  lemma AttributeNext(qs: seq<Attribute>, i: nat, types: bytes, values: bytes)
    requires i < |qs| && AttributeOk(qs[i]) && AttributesFilled(qs, i, types, values)
    ensures AttributesFilled(qs, i + 1, types + AttributeType(qs[i]), values + AttributeBytes(qs[i]))
  {
    assert qs[..i] + [qs[i]] == qs[..i + 1];
    AttributesGrow(qs[..i], qs[i], qs[..i + 1]);
  }

  lemma AttributesGrow(front: seq<Attribute>, q: Attribute, whole: seq<Attribute>)
    requires AttributesOk(front) && AttributeOk(q) && whole == front + [q]
    ensures AttributesOk(whole) && AttributeTypes(whole) == AttributeTypes(front) + AttributeType(q)
    ensures AttributeValues(whole) == AttributeValues(front) + AttributeBytes(q)
  {
    AppendAttribute(front, q);
  }

  /** The attribute loop of Stmt.write. */
  method FillAttributes(qs: seq<Attribute>) returns (types: bytes, values: bytes)
    requires AttributesOk(qs)
    ensures types == AttributeTypes(qs) && values == AttributeValues(qs)
  {
    types, values := [], [];
    var i := 0;
    assert qs[..0] == [];
    while i < |qs|
      invariant AttributesFilled(qs, i, types, values)
    {
      AttributeAt(qs, i);
      AttributeNext(qs, i, types, values);
      types, values := types + AttributeType(qs[i]), values + AttributeBytes(qs[i]);
      i := i + 1;
    }
    assert qs[..|qs|] == qs;
  }

  lemma {:induction false} BitmapsAgree(a: bytes, flags: seq<bool>)
    requires |a| == BitmapByteSize(|flags|)
    requires forall i :: 0 <= i < |flags| ==> IsBitSet(a, i) == flags[i]
    requires forall i :: |flags| <= i < 8 * |a| ==> !IsBitSet(a, i)
    ensures a == PackBits(flags)
  {
    forall k | 0 <= k < |a| ensures a[k] == PackBits(flags)[k] {
      forall j | 0 <= j < 8 ensures Bit(a[k], j) == Bit(PackBits(flags)[k], j) {
        var i := 8 * k + j;
        assert i / 8 == k && i % 8 == j;
        if i < |flags| { PackedBit(flags, i); } else { PackedPadding(flags, 8 * k, 8, j); }
        assert IsBitSet(a, i) == Bit(a[k], j);
      }
      SameBits(a[k], PackBits(flags)[k], 8);
    }
  }

  lemma {:induction false} PackedPadding(flags: seq<bool>, i: nat, width: nat, j: nat)
    requires j < width && i + j >= |flags|
    ensures !Bit(PackFrom(flags, i, width), j)
    decreases width
  {
    if i < |flags| && j > 0 { PackedPadding(flags, i + 1, width - 1, j - 1); } else { ZeroBit(j); }
  }

  lemma {:induction false} ZeroBit(j: nat)
    ensures !Bit(0, j)
  {
    if j > 0 { ZeroBit(j - 1); }
  }

  lemma {:induction false} SameBits(x: nat, y: nat, width: nat)
    requires x < Pow2(width) && y < Pow2(width) && forall j :: 0 <= j < width ==> Bit(x, j) == Bit(y, j)
    ensures x == y
    decreases width
  {
    if width > 0 {
      assert Bit(x, 0) == Bit(y, 0);
      forall j | 0 <= j < width - 1 ensures Bit(x / 2, j) == Bit(y / 2, j) { assert Bit(x, j + 1) == Bit(y, j + 1); }
      SameBits(x / 2, y / 2, width - 1);
    }
  }

  lemma {:induction false} AppendArg(args: seq<Arg>, x: Arg)
    requires ArgsOk(args) && ArgOk(x) && !x.Other?
    ensures ArgsOk(args + [x]) && AllNil(args + [x]) == (AllNil(args) && x.Nil?)
    ensures Wires(args + [x]) == Wires(args) + [WireOf(x)]
    decreases |args|
  {
    if args == [] {
      assert [] + [x] == [x] && [x][1..] == [];
    } else {
      AppendArg(args[1..], x);
      DropConcat(args, [x], 1);
      ConcatAssoc([WireOf(args[0])], Wires(args[1..]), [WireOf(x)]);
    }
  }

  /** What one parameter adds to the types. */
  function TypeOf(w: Wire, capable: bool): (b: bytes) { [w.tp, w.flag] + if capable then [0] else [] }

  lemma {:induction false} AppendWire(ws: seq<Wire>, w: Wire, capable: bool)
    ensures TypeBytes(ws + [w], capable) == TypeBytes(ws, capable) + TypeOf(w, capable)
    ensures ValueBytes(ws + [w]) == ValueBytes(ws) + w.value
    decreases |ws|
  {
    if ws == [] {
      assert [] + [w] == [w] && [w][1..] == [];
      ConcatEmpty(TypeOf(w, capable));
      ConcatEmpty(w.value);
      assert [] + TypeOf(w, capable) == TypeOf(w, capable) && [] + w.value == w.value;
    } else {
      AppendWire(ws[1..], w, capable);
      DropConcat(ws, [w], 1);
      ConcatAssoc(TypeOf(ws[0], capable), TypeBytes(ws[1..], capable), TypeOf(w, capable));
      ConcatAssoc(ws[0].value, ValueBytes(ws[1..]), w.value);
    }
  }

  lemma {:induction false} OneBadArg(args: seq<Arg>, i: nat)
    requires i < |args| && args[i].Other?
    ensures !ArgsOk(args)
  {
    if i > 0 { OneBadArg(args[1..], i - 1); }
  }

  lemma FreshBitmap(n: nat)
    ensures var z: bytes := seq(n, _ => 0); forall j :: 0 <= j < 8 * n ==> !IsBitSet(z, j)
  {
    var z: bytes := seq(n, _ => 0);
    forall j | 0 <= j < 8 * n ensures !IsBitSet(z, j) { ZeroBit(j % 8); }
  }

  /** The null bitmap once the loop has been through i arguments. */
  predicate Marked(nulls: bytes, args: seq<Arg>, q: nat, i: nat)
    requires i <= |args|
  {
    |nulls| == BitmapByteSize(|args| + q)
      && forall j :: 0 <= j < 8 * |nulls| ==> IsBitSet(nulls, j) == (j < i && args[j].Nil?)
  }

  lemma MarkNext(nulls: bytes, args: seq<Arg>, q: nat, i: nat)
    requires i < |args| && Marked(nulls, args, q, i)
    ensures args[i].Nil? ==> Marked(SetBit(nulls, i), args, q, i + 1)
    ensures !args[i].Nil? ==> Marked(nulls, args, q, i + 1)
  {
  }

  lemma MarkedIsPacked(nulls: bytes, args: seq<Arg>, q: nat)
    requires Marked(nulls, args, q, |args|)
    ensures nulls == PackBits(Flags(args, q))
  {
    BitmapsAgree(nulls, Flags(args, q));
  }

  /** The other buffers at that point. */
  ghost predicate Filled(args: seq<Arg>, i: nat, capable: bool, bound: byte, types: bytes, values: bytes)
    requires i <= |args|
  {
    && ArgsOk(args[..i]) && bound == (if AllNil(args[..i]) then 0 else 1)
    && types == TypeBytes(Wires(args[..i]), capable) && values == ValueBytes(Wires(args[..i]))
  }

  lemma FillNext(args: seq<Arg>, i: nat, capable: bool, bound: byte, types: bytes, values: bytes,
                 w: Wire, bound': byte, types': bytes, values': bytes)
    requires 0 < i <= |args| && Filled(args, i - 1, capable, bound, types, values)
    requires ArgOk(args[i - 1]) && !args[i - 1].Other? && w == WireOf(args[i - 1])
    requires bound' == (if args[i - 1].Nil? then bound else 1) && types' == types + TypeOf(w, capable)
    requires values' == if args[i - 1].Nil? then values else values + w.value
    ensures Filled(args, i, capable, bound', types', values')
  {
    AppendArg(args[..i - 1], args[i - 1]);
    assert args[..i - 1] + [args[i - 1]] == args[..i];
    AppendWire(Wires(args[..i - 1]), w, capable);
    ConcatEmpty(values);
  }

  /** The argument loop of Stmt.write. */
  method FillParams(args: seq<Arg>, q: nat, capable: bool)
    returns (ok: bool, nulls: bytes, bound: byte, types: bytes, values: bytes)
    requires forall i :: 0 <= i < |args| ==> ArgOk(args[i])
    ensures ok == ArgsOk(args)
    ensures ok ==>
      && nulls == PackBits(Flags(args, q)) && bound == (if AllNil(args) then 0 else 1)
      && types == TypeBytes(Wires(args), capable) && values == ValueBytes(Wires(args))
  {
    nulls := seq(BitmapByteSize(|args| + q), _ => 0);
    bound, types, values := 0, [], [];
    FreshBitmap(BitmapByteSize(|args| + q));
    assert args[..0] == [];
    var i := 0;
    while i < |args|
      invariant i <= |args| && Marked(nulls, args, q, i)
      invariant Filled(args, i, capable, bound, types, values)
    {
      var a := args[i];
      if a.Other? {
        OneBadArg(args, i);
        return false, nulls, bound, types, values;
      }
      MarkNext(nulls, args, q, i);
      ghost var bound0, types0, values0 := bound, types, values;
      var w := WireOf(a);
      if a.Nil? {
        nulls := SetBit(nulls, i);
      } else {
        bound := 1;
        values := values + w.value;
      }
      types := types + TypeOf(w, capable);
      i := i + 1;
      FillNext(args, i, capable, bound0, types0, values0, w, bound, types, values);
    }
    assert args[..|args|] == args;
    MarkedIsPacked(nulls, args, q);
    ok := true;
  }

  // ----- the server's statements -----

  class Stmt {
    const params: nat
    var args: array<Arg>

    ghost predicate Valid()
      reads this
    {
      args.Length == params
    }

    constructor (params: nat)
      ensures Valid() && this.params == params && fresh(args) && args[..] == Nils(params)
    {
      this.params := params;
      args := new Arg[params](_ => Nil);
      new;
      assert args[..] == Nils(params);
    }

    /** ResetParams: a new slice of nils. */
    method ResetParams()
      modifies this
      ensures Valid() && fresh(args) && args[..] == Nils(params)
    {
      args := new Arg[params](_ => Nil);
      assert args[..] == Nils(params);
    }

    /** bindStmtArgs: arguments are written one by one; false is an error, which leaves those written before it. */
    method BindStmtArgs(nulls: bytes, types: bytes, values: bytes) returns (ok: bool)
      requires Valid() && BitmapByteSize(params) <= |nulls| && |types| == 2 * params
      modifies args
      ensures ok == BindFrom(nulls, types, values, params, 0).Some?
      ensures args[..] == Written(nulls, types, values, params, 0, old(args[..]))
    {
      var i, rest := 0, values;
      ghost var end := Written(nulls, types, values, params, 0, args[..]);
      ghost var whole := BindFrom(nulls, types, values, params, 0).Some?;
      while i < params
        invariant i <= params && end == Written(nulls, types, rest, params, i, args[..])
        invariant whole == BindFrom(nulls, types, rest, params, i).Some?
      {
        ghost var before := args[..];
        if IsBitSet(nulls, i) {
          args[i] := Nil;
        } else {
          var r := ReadArg(types[2 * i], types[2 * i + 1] >= 128, rest);
          if r.None? { return false; }
          args[i], rest := r.value.0, r.value.1;
        }
        assert args[..] == before[i := args[i]];
        i := i + 1;
      }
      ok := true;
    }

    /** handleStmtExecute once the statement is found: what the handler is to be called with. */
    method TakeParams(data: bytes) returns (r: Option<seq<Arg>>)
      requires Valid() && |data| >= 9
      modifies args
      ensures r == Handled(data, old(args[..])) && args[..] == Bound(data, old(args[..]))
    {
      ghost var current := args[..];
      if data[4] / 16 != 0 || data[4] % 8 != 0 { return None; }
      if params > 0 {
        var n := BitmapByteSize(params);
        var types := 9 + n + 1;
        if |data| < types { return None; }
        if data[9 + n] == 1 {
          var values := types + 2 * params;
          if |data| < values { return None; }
          var ok := BindStmtArgs(data[9..9 + n], data[types..values], data[values..]);
          if !ok { return None; }
          HandledIsBound(data, current);
        }
      }
      r := Some(args[..]);
    }

    /** The rest of handleStmtExecute: a handler that returns an error keeps the arguments. */
    method Execute(data: bytes, accepts: bool) returns (r: Option<seq<Arg>>, ok: bool)
      requires Valid() && |data| >= 9
      modifies this, args
      ensures Valid() && r == Handled(data, old(args[..])) && ok == (r.Some? && accepts)
      ensures args[..] == Left(data, old(args[..]), accepts) && (args == old(args) || fresh(args))
    {
      r := TakeParams(data);
      ok := r.Some? && accepts;
      if ok { ResetParams(); }
    }
  }

  class Conn {
    var stmts: map<nat, Stmt>

    constructor ()
      ensures stmts == map[]
    {
      stmts := map[];
    }

    /** The statement that a packet names. */
    function Named(data: bytes): (s: Option<Stmt>)
      reads this
    {
      if |data| < 4 || FromLE(data[..4]) !in stmts then None else Some(stmts[FromLE(data[..4])])
    }

    /**
     handleStmtExecute: what the handler is called with, if it is called, and whether
     there is a result. `accepts` tells whether the handler returns one. No other
     statement changes.
     */
    method HandleStmtExecute(data: bytes, accepts: bool) returns (r: Option<seq<Arg>>, ok: bool)
      requires Named(data).Some? ==> Named(data).value.Valid()
      modifies if Named(data).Some? then {Named(data).value, Named(data).value.args} else {}
      ensures |data| < 9 || Named(data) == None ==> r == None && !ok
      ensures |data| < 9 && Named(data).Some?
        ==> var s := Named(data).value; s.args == old(s.args) && s.args[..] == old(s.args[..])
      ensures |data| >= 9 && Named(data).Some? ==>
        var s := Named(data).value;
        && s.Valid() && r == old(Handled(data, s.args[..])) && ok == (r.Some? && accepts)
        && s.args[..] == Left(data, old(s.args[..]), accepts) && (s.args == old(s.args) || fresh(s.args))
    {
      r, ok := None, false;
      if |data| >= 9 {
        var id := FromLE(data[..4]);
        if id in stmts { r, ok := stmts[id].Execute(data, accepts); }
      }
    }

    /** handleStmtReset */
    method HandleStmtReset(data: bytes) returns (ok: bool)
      modifies if Named(data).Some? then {Named(data).value} else {}
      ensures ok == Named(data).Some?
      ensures ok ==> var s := Named(data).value; s.Valid() && fresh(s.args) && s.args[..] == Nils(s.params)
    {
      if |data| < 4 || FromLE(data[..4]) !in stmts { return false; }
      stmts[FromLE(data[..4])].ResetParams();
      ok := true;
    }
  }

  /** One command of the client, on the object of the server. */
  method Perform(conn: Conn, id: nat, c: Command) returns (r: Option<seq<Arg>>)
    requires id < Pow256(4) && id in conn.stmts && conn.stmts[id].Valid() && CommandOk(c, conn.stmts[id].params)
    modifies conn.stmts[id], conn.stmts[id].args
    ensures conn.stmts == old(conn.stmts) && conn.stmts[id].Valid()
    ensures conn.stmts[id].args == old(conn.stmts[id].args) || fresh(conn.stmts[id].args)
    ensures conn.stmts[id].args[..] == After(id, c, old(conn.stmts[id].args[..]))
    ensures c.Execute? ==> r == Handled(Packet(id, c.args, c.qs, false), old(conn.stmts[id].args[..]))
  {
    r := None;
    LittleEndianRoundTrip(4, id);
    if c.Execute? {
      AllOk(c.args);
      var data := Write(id, |c.args|, c.args, c.qs, false);
      PacketNames(id, c.args, c.qs);
      var ok;
      r, ok := conn.HandleStmtExecute(data.value, c.accepted);
    } else {
      assert LE(4, id)[..4] == LE(4, id);
      var ok := conn.HandleStmtReset(LE(4, id));
    }
  }

  lemma PacketNames(id: nat, args: seq<Arg>, qs: seq<Attribute>)
    requires id < Pow256(4) && ArgsOk(args) && AttributesOk(qs) && |args| + |qs| < Pow256(8)
    ensures var d := Packet(id, args, qs, false); |d| >= 9 && FromLE(d[..4]) == id
  {
    LittleEndianRoundTrip(4, id);
    assert Packet(id, args, qs, false)[..4] == LE(4, id);
  }

  lemma {:induction false} AllOk(args: seq<Arg>)
    requires ArgsOk(args)
    ensures forall i :: 0 <= i < |args| ==> ArgOk(args[i])
  {
    forall i | 0 <= i < |args| ensures ArgOk(args[i]) { OkAt(args, i); }
  }

  /**
   A whole life of a statement, written by the client and handled by the server's
   object: what the handler was given at each execution. It is what the client sent
   at every one of them exactly when the client could foresee it.
   */
  method Converse(conn: Conn, id: nat, cs: seq<Command>) returns (all: bool)
    requires id < Pow256(4) && id in conn.stmts && conn.stmts[id].Valid()
    requires conn.stmts[id].args[..] == Nils(conn.stmts[id].params) && CommandsOk(cs, conn.stmts[id].params)
    modifies conn.stmts[id], conn.stmts[id].args
    ensures all <==> Foreseen(cs, Nils(conn.stmts[id].params))
  {
    var s := conn.stmts[id];
    all := true;
    var i := 0;
    ghost var goal := AllCross(id, cs, s.args[..]);
    EveryCallCrosses(id, cs, s.args[..]);
    assert cs[0..] == cs;
    while i < |cs|
      invariant i <= |cs| && id in conn.stmts && conn.stmts[id] == s && s.Valid()
      invariant s.args == old(s.args) || fresh(s.args)
      invariant CommandsOk(cs[i..], s.params) && goal == (all && AllCross(id, cs[i..], s.args[..]))
    {
      assert cs[i..][0] == cs[i] && cs[i..][1..] == cs[i + 1..];
      var r := Perform(conn, id, cs[i]);
      if cs[i].Execute? && r != Some(NormalAll(cs[i].args)) { all := false; }
      i := i + 1;
    }
  }
}
