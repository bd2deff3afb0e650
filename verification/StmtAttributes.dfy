/**
 COM_STMT_EXECUTE on a connection with the query-attributes capability. The
 client's packet (Stmt.write in client/stmt.go) is read as the MySQL
 Client/Server Protocol lays it out: the parameter count, the null bitmap, a
 name after every type. Attributes follow the arguments.
 */
module StmtAttributes {
  import opened Bits
  import opened Bytes
  import opened Lists
  import opened StmtExecute

  datatype Param = Param(name: bytes, value: Arg)

  // ----- the reader -----

  datatype Field = Field(tp: byte, unsigned: bool, name: bytes)

  /** The types of n parameters, a name after each; None is a packet that ends too early. */
  function ReadFields(d: bytes, n: nat): (r: Option<(seq<Field>, bytes)>)
    ensures r.Some? ==> |r.value.0| == n
    decreases n
  {
    if n == 0 then Some(([], d))
    else if |d| < 2 then None
    else match LengthEncodedString(d[2..])
      case Some(Text(name, _, k)) =>
        if 2 + k > |d| then None
        else (match ReadFields(d[2 + k..], n - 1)
              case None => None
              case Some((fs, rest)) => Some(([Field(d[0], d[1] >= 128, name)] + fs, rest)))
      case _ => None
  }

  /** One value; a null has no bytes. */
  function ReadValue(f: Field, isNull: bool, d: bytes): (r: Option<(Arg, bytes)>) {
    if isNull then Some((Nil, d)) else ReadArg(f.tp, f.unsigned, d)
  }

  /** The values, from parameter i on. */
  function ReadValues(fs: seq<Field>, nulls: bytes, i: nat, d: bytes): (r: Option<seq<Param>>)
    requires i + |fs| <= 8 * |nulls|
    ensures r.Some? ==> |r.value| == |fs|
    decreases |fs|
  {
    if fs == [] then Some([])
    else
      match ReadValue(fs[0], IsBitSet(nulls, i), d)
      case None => None
      case Some((a, rest)) =>
        match ReadValues(fs[1..], nulls, i + 1, rest)
        case None => None
        case Some(ps) => Some([Param(fs[0].name, a)] + ps)
  }

  /** Without types only nulls can be told. */
  function ReadBare(nulls: bytes, n: nat): (r: Option<seq<Param>>)
    requires n <= 8 * |nulls|
  {
    if forall i :: 0 <= i < n ==> IsBitSet(nulls, i) then Some(Unnamed(Nils(n))) else None
  }

  function ReadBound(nulls: bytes, d: bytes, n: nat): (r: Option<seq<Param>>)
    requires n <= 8 * |nulls|
  {
    match ReadFields(d, n)
    case None => None
    case Some((fs, rest)) => ReadValues(fs, nulls, 0, rest)
  }

  /** Null bitmap, bound flag and what follows it. */
  function ReadParams(d: bytes, n: nat): (r: Option<seq<Param>>) {
    var m := BitmapByteSize(n);
    if |d| < m + 1 then None else if d[m] == 1 then ReadBound(d[..m], d[m + 1..], n) else ReadBare(d[..m], n)
  }

  /** The packet after its command byte: one iteration, parameters if flag 8 says that their number is there. */
  function ReadExecute(d: bytes): (r: Option<seq<Param>>) {
    if |d| < 9 || d[5] != 1 || d[6] != 0 || d[7] != 0 || d[8] != 0 then None
    else if d[4] / 8 % 2 == 0 then Some([])
    else ReadCounted(d[9..])
  }

  function ReadCounted(d: bytes): (r: Option<seq<Param>>) {
    match LengthEncodedInt(d)
    case Some(LenEnc(n, _, k)) => ReadParams(d[k..], n)
    case None => None
  }

  // ----- what the client means -----

  function Unnamed(args: seq<Arg>): (ps: seq<Param>)
    ensures |ps| == |args|
  {
    if args == [] then [] else [Param([], args[0])] + Unnamed(args[1..])
  }

  /** The argument that an attribute is sent as; one of an unsupported type is an empty decimal. */
  function AsArg(q: Attribute): (a: Arg) {
    match q.value
    case AsString(s) => Str(s)
    case AsUint64(u) => Uint(u)
    case Unsupported => Typed(0, [])
  }

  function Named(qs: seq<Attribute>): (ps: seq<Param>)
    ensures |ps| == |qs|
  {
    if qs == [] then [] else [Param(qs[0].name, AsArg(qs[0]))] + Named(qs[1..])
  }

  /** Arguments without names, then the attributes. */
  function Sent(args: seq<Arg>, qs: seq<Attribute>): (ps: seq<Param>)
    ensures |ps| == |args| + |qs|
  {
    Unnamed(args) + Named(qs)
  }

  function Received(ps: seq<Param>): (rs: seq<Param>)
    ensures |rs| == |ps|
    ensures forall i :: 0 <= i < |ps| ==> rs[i] == Param(ps[i].name, Normal(ps[i].value))
  {
    if ps == [] then [] else [Param(ps[0].name, Normal(ps[0].value))] + Received(ps[1..])
  }

  // ----- the packet as a list of parameters -----

  predicate ParamOk(p: Param) { ArgOk(p.value) && !p.value.Other? && |p.name| < Pow256(8) }

  predicate ParamsOk(ps: seq<Param>) { ps == [] || (ParamOk(ps[0]) && ParamsOk(ps[1..])) }

  /** A parameter as it is laid out. */
  datatype Piece = Piece(wire: Wire, name: bytes)

  predicate Short(xs: seq<Piece>) { xs == [] || (|xs[0].name| < Pow256(8) && Short(xs[1..])) }

  function PiecesOf(ps: seq<Param>): (xs: seq<Piece>)
    requires ParamsOk(ps)
    ensures |xs| == |ps| && Short(xs)
  {
    if ps == [] then [] else [Piece(WireOf(ps[0].value), ps[0].name)] + PiecesOf(ps[1..])
  }

  function FieldBytes(x: Piece): (b: bytes)
    requires |x.name| < Pow256(8)
  {
    [x.wire.tp, x.wire.flag] + TextBytes(x.name)
  }

  function FieldsBytes(xs: seq<Piece>): (b: bytes)
    requires Short(xs)
  {
    if xs == [] then [] else FieldBytes(xs[0]) + FieldsBytes(xs[1..])
  }

  function PieceValues(xs: seq<Piece>): (b: bytes) {
    if xs == [] then [] else xs[0].wire.value + PieceValues(xs[1..])
  }

  function FieldOf(x: Piece): (f: Field) { Field(x.wire.tp, x.wire.flag >= 128, x.name) }

  function FieldsOf(xs: seq<Piece>): (fs: seq<Field>)
    ensures |fs| == |xs|
  {
    if xs == [] then [] else [FieldOf(xs[0])] + FieldsOf(xs[1..])
  }

  lemma {:induction false} UnnamedBytes(args: seq<Arg>, ps: seq<Param>)
    requires ArgsOk(args) && ps == Unnamed(args)
    ensures ParamsOk(ps) && TypeBytes(Wires(args), true) == FieldsBytes(PiecesOf(ps))
    ensures ValueBytes(Wires(args)) == PieceValues(PiecesOf(ps))
  {
    if args != [] {
      assert Pow256(8) > 0;
      UnnamedBytes(args[1..], ps[1..]);
      UnnamedStep(Wires(args), Wires(args[1..]), PiecesOf(ps), PiecesOf(ps[1..]));
    }
  }

  lemma UnnamedStep(ws: seq<Wire>, more: seq<Wire>, xs: seq<Piece>, rest: seq<Piece>)
    requires ws != [] && ws[1..] == more && Short(xs) && xs == [Piece(ws[0], [])] + rest && Short(rest)
    requires TypeBytes(more, true) == FieldsBytes(rest) && ValueBytes(more) == PieceValues(rest)
    ensures TypeBytes(ws, true) == FieldsBytes(xs) && ValueBytes(ws) == PieceValues(xs)
  {
    assert TextBytes([]) == [0] && xs[1..] == rest;
  }

  lemma AttributeIsParam(q: Attribute, p: Param)
    requires AttributeOk(q) && p == Param(q.name, AsArg(q))
    ensures ParamOk(p) && AttributeType(q) == FieldBytes(Piece(WireOf(p.value), p.name))
    ensures AttributeBytes(q) == WireOf(p.value).value
  {
    assert TextBytes([]) == [0];
  }

  lemma {:induction false} NamedBytes(qs: seq<Attribute>, ps: seq<Param>)
    requires AttributesOk(qs) && ps == Named(qs)
    ensures ParamsOk(ps) && AttributeTypes(qs) == FieldsBytes(PiecesOf(ps))
    ensures AttributeValues(qs) == PieceValues(PiecesOf(ps))
  {
    if qs != [] {
      AttributeIsParam(qs[0], ps[0]);
      NamedBytes(qs[1..], ps[1..]);
      assert PiecesOf(ps)[1..] == PiecesOf(ps[1..]);
    }
  }

  lemma {:induction false} SumOfPieces(a: seq<Piece>, b: seq<Piece>)
    requires Short(a) && Short(b)
    ensures Short(a + b) && FieldsBytes(a + b) == FieldsBytes(a) + FieldsBytes(b)
    ensures PieceValues(a + b) == PieceValues(a) + PieceValues(b)
  {
    if a == [] {
      assert a + b == b;
    } else {
      DropConcat(a, b, 1);
      SumOfPieces(a[1..], b);
      ConcatAssoc(FieldBytes(a[0]), FieldsBytes(a[1..]), FieldsBytes(b));
      ConcatAssoc(a[0].wire.value, PieceValues(a[1..]), PieceValues(b));
    }
  }

  lemma {:induction false} SumOfParams(a: seq<Param>, b: seq<Param>)
    requires ParamsOk(a) && ParamsOk(b)
    ensures ParamsOk(a + b) && PiecesOf(a + b) == PiecesOf(a) + PiecesOf(b)
  {
    if a == [] {
      assert a + b == b;
    } else {
      DropConcat(a, b, 1);
      SumOfParams(a[1..], b);
      ConcatAssoc([Piece(WireOf(a[0].value), a[0].name)], PiecesOf(a[1..]), PiecesOf(b));
    }
  }

  /** The parameters of the packet: types and values of arguments and attributes, in one list. */
  lemma ParamsAre(args: seq<Arg>, qs: seq<Attribute>, ps: seq<Param>)
    requires ArgsOk(args) && AttributesOk(qs) && !AllNil(args) && ps == Sent(args, qs)
    ensures ParamsOk(ps)
    ensures Params(args, qs, true)
         == PackBits(Flags(args, |qs|)) + ([1] + (FieldsBytes(PiecesOf(ps)) + PieceValues(PiecesOf(ps))))
  {
    UnnamedBytes(args, Unnamed(args));
    NamedBytes(qs, Named(qs));
    SumOfParams(Unnamed(args), Named(qs));
    SumOfPieces(PiecesOf(Unnamed(args)), PiecesOf(Named(qs)));
  }

  // ----- reading it -----

  lemma {:induction false} FieldsRead(xs: seq<Piece>, rest: bytes, d: bytes)
    requires Short(xs) && d == FieldsBytes(xs) + rest
    ensures ReadFields(d, |xs|) == Some((FieldsOf(xs), rest))
    decreases |xs|
  {
    if xs == [] {
      assert [] + rest == rest;
    } else {
      var tail := FieldsBytes(xs[1..]) + rest;
      FieldsRead(xs[1..], rest, tail);
      ConcatAssoc(FieldBytes(xs[0]), FieldsBytes(xs[1..]), rest);
      FieldsStep(xs[0], tail, d, |xs|, FieldsOf(xs[1..]), rest);
    }
  }

  lemma FieldsStep(x: Piece, tail: bytes, d: bytes, n: nat, fs: seq<Field>, rest: bytes)
    requires |x.name| < Pow256(8) && d == FieldBytes(x) + tail && n > 0 && ReadFields(tail, n - 1) == Some((fs, rest))
    ensures ReadFields(d, n) == Some(([FieldOf(x)] + fs, rest))
  {
    OneField(x, tail, d);
    FieldsJoin(d, n, FieldOf(x), |TextBytes(x.name)|, tail, fs, rest);
  }

  lemma OneField(x: Piece, rest: bytes, d: bytes)
    requires |x.name| < Pow256(8) && d == FieldBytes(x) + rest
    ensures HasField(d, FieldOf(x), |TextBytes(x.name)|, rest)
  {
    LengthEncodedStringRoundTrip(x.name, rest);
    PairThen(x.wire.tp, x.wire.flag, TextBytes(x.name), rest, d);
  }

  lemma PairThen(x: byte, y: byte, t: bytes, rest: bytes, d: bytes)
    requires d == [x, y] + t + rest
    ensures |d| >= 2 + |t| && d[0] == x && d[1] == y && d[2..] == t + rest && d[2 + |t|..] == rest
  {
  }

  /** d starts with a type and a name of k bytes. */
  predicate HasField(d: bytes, f: Field, k: nat, rest: bytes) {
    && |d| >= 2 + k && d[0] == f.tp && (d[1] >= 128) == f.unsigned
    && LengthEncodedString(d[2..]) == Some(Text(f.name, false, k)) && d[2 + k..] == rest
  }

  lemma FieldsJoin(d: bytes, n: nat, f: Field, k: nat, tail: bytes, fs: seq<Field>, rest: bytes)
    requires n > 0 && HasField(d, f, k, tail) && ReadFields(tail, n - 1) == Some((fs, rest))
    ensures ReadFields(d, n) == Some(([f] + fs, rest))
  {
  }

  /** Which parameters the bitmap says are null. */
  ghost predicate NullsOf(nulls: bytes, ps: seq<Param>, i: nat) {
    i + |ps| <= 8 * |nulls| && forall j :: 0 <= j < |ps| ==> IsBitSet(nulls, i + j) == ps[j].value.Nil?
  }

  predicate Readable(ps: seq<Param>) { forall i :: 0 <= i < |ps| && ps[i].value.Typed? ==> IsText(ps[i].value.tp) }

  lemma NullsNext(nulls: bytes, ps: seq<Param>, i: nat)
    requires ps != [] && NullsOf(nulls, ps, i)
    ensures IsBitSet(nulls, i) == ps[0].value.Nil? && NullsOf(nulls, ps[1..], i + 1)
  {
    assert IsBitSet(nulls, i + 0) == ps[0].value.Nil?;
    forall j | 0 <= j < |ps| - 1 ensures IsBitSet(nulls, i + 1 + j) == ps[1..][j].value.Nil? {
      assert IsBitSet(nulls, i + (j + 1)) == ps[j + 1].value.Nil?;
    }
  }

  lemma OneValue(p: Param, isNull: bool, rest: bytes, d: bytes)
    requires ParamOk(p) && isNull == p.value.Nil? && (p.value.Typed? ==> IsText(p.value.tp))
    requires d == WireOf(p.value).value + rest
    ensures ReadValue(FieldOf(Piece(WireOf(p.value), p.name)), isNull, d) == Some((Normal(p.value), rest))
  {
    if isNull { assert [] + rest == rest; } else { ArgRead(p.value, rest); }
  }

  lemma {:induction false} ValuesRead(ps: seq<Param>, nulls: bytes, i: nat, d: bytes)
    requires ParamsOk(ps) && NullsOf(nulls, ps, i) && Readable(ps) && d == PieceValues(PiecesOf(ps))
    ensures ReadValues(FieldsOf(PiecesOf(ps)), nulls, i, d) == Some(Received(ps))
    decreases |ps|
  {
    if ps != [] {
      var fs, gs, rest := PiecesStep(ps);
      NullsNext(nulls, ps, i);
      ValuesRead(ps[1..], nulls, i + 1, rest);
      OneValue(ps[0], IsBitSet(nulls, i), rest, d);
      ValuesJoin(fs, nulls, i, d, Normal(ps[0].value), rest, gs, Received(ps[1..]));
    }
  }

  lemma PiecesStep(ps: seq<Param>) returns (fs: seq<Field>, gs: seq<Field>, rest: bytes)
    requires ParamsOk(ps) && ps != []
    ensures fs == FieldsOf(PiecesOf(ps)) && gs == fs[1..] == FieldsOf(PiecesOf(ps[1..]))
    ensures fs[0] == FieldOf(Piece(WireOf(ps[0].value), ps[0].name))
    ensures rest == PieceValues(PiecesOf(ps[1..])) && PieceValues(PiecesOf(ps)) == WireOf(ps[0].value).value + rest
  {
    var xs, ys := PiecesOf(ps), PiecesOf(ps[1..]);
    assert xs[1..] == ys;
    fs, gs, rest := FieldsOf(xs), FieldsOf(ys), PieceValues(ys);
  }

  lemma ValuesJoin(fs: seq<Field>, nulls: bytes, i: nat, d: bytes, a: Arg, rest: bytes, gs: seq<Field>, ps: seq<Param>)
    requires fs != [] && gs == fs[1..] && i + |fs| <= 8 * |nulls|
    requires ReadValue(fs[0], IsBitSet(nulls, i), d) == Some((a, rest))
    requires ReadValues(gs, nulls, i + 1, rest) == Some(ps)
    ensures ReadValues(fs, nulls, i, d) == Some([Param(fs[0].name, a)] + ps)
  {
  }

  lemma {:induction false} UnreadValue(fs: seq<Field>, nulls: bytes, i: nat, d: bytes, j: nat)
    requires i + |fs| <= 8 * |nulls| && j < |fs| && !IsBitSet(nulls, i + j) && !IsText(fs[j].tp)
    requires ReadValues(fs, nulls, i, d).Some?
    ensures !ReadValues(fs, nulls, i, d).value[j].value.Typed?
    decreases |fs|
  {
    if j > 0 {
      UnreadValue(fs[1..], nulls, i + 1, ReadValue(fs[0], IsBitSet(nulls, i), d).value.1, j - 1);
    }
  }

  lemma {:induction false} FieldAt(ps: seq<Param>, i: nat)
    requires ParamsOk(ps) && i < |ps|
    ensures ps[i].value.Typed? ==> FieldsOf(PiecesOf(ps))[i].tp == ps[i].value.tp
  {
    assert PiecesOf(ps)[1..] == PiecesOf(ps[1..]);
    if i > 0 { FieldAt(ps[1..], i - 1); }
  }

  lemma {:induction false} UnnamedAt(args: seq<Arg>, i: nat)
    requires i < |args|
    ensures Unnamed(args)[i] == Param([], args[i])
  {
    if i > 0 { UnnamedAt(args[1..], i - 1); }
  }

  lemma {:induction false} NamedAt(qs: seq<Attribute>, i: nat)
    requires i < |qs|
    ensures Named(qs)[i] == Param(qs[i].name, AsArg(qs[i]))
  {
    if i > 0 { NamedAt(qs[1..], i - 1); }
  }

  lemma SentAt(args: seq<Arg>, qs: seq<Attribute>, i: nat)
    requires i < |args| + |qs|
    ensures Sent(args, qs)[i]
         == if i < |args| then Param([], args[i]) else Param(qs[i - |args|].name, AsArg(qs[i - |args|]))
  {
    if i < |args| { UnnamedAt(args, i); } else { NamedAt(qs, i - |args|); }
  }

  lemma NullsPacked(args: seq<Arg>, qs: seq<Attribute>, nulls: bytes, ps: seq<Param>)
    requires nulls == PackBits(Flags(args, |qs|)) && ps == Sent(args, qs)
    ensures |nulls| == BitmapByteSize(|ps|) && NullsOf(nulls, ps, 0)
  {
    var flags := Flags(args, |qs|);
    forall j | 0 <= j < |ps| ensures IsBitSet(nulls, 0 + j) == ps[j].value.Nil? {
      PackedBit(flags, j);
      SentAt(args, qs, j);
    }
  }

  lemma {:induction false} ReadableArgs(args: seq<Arg>)
    ensures Bindable(args) <==> forall i :: 0 <= i < |args| && args[i].Typed? ==> IsText(args[i].tp)
  {
    if args != [] {
      ReadableArgs(args[1..]);
      assert forall i :: 0 < i < |args| ==> args[i] == args[1..][i - 1];
      if Bindable(args) {
        forall i | 0 <= i < |args| && args[i].Typed? ensures IsText(args[i].tp) {
          if i > 0 { assert args[1..][i - 1] == args[i]; }
        }
      }
    }
  }

  lemma ReadableSent(args: seq<Arg>, qs: seq<Attribute>, ps: seq<Param>)
    requires ps == Sent(args, qs)
    ensures Readable(ps) <==> Bindable(args)
  {
    ReadableArgs(args);
    forall i | 0 <= i < |ps|
      ensures ps[i].value == if i < |args| then args[i] else AsArg(qs[i - |args|])
    {
      SentAt(args, qs, i);
    }
    if Readable(ps) {
      forall i | 0 <= i < |args| && args[i].Typed? ensures IsText(args[i].tp) { assert ps[i].value == args[i]; }
    }
  }

  /** Types and values are there: all is read, exactly when every typed text has a type that is read as one. */
  lemma BoundRead(ps: seq<Param>, xs: seq<Piece>, nulls: bytes, d: bytes)
    requires ParamsOk(ps) && |nulls| == BitmapByteSize(|ps|) && NullsOf(nulls, ps, 0) && xs == PiecesOf(ps)
    requires d == nulls + ([1] + (FieldsBytes(xs) + PieceValues(xs)))
    ensures ReadParams(d, |ps|) == Some(Received(ps)) <==> Readable(ps)
  {
    var rest := PieceValues(xs);
    FieldsRead(xs, rest, FieldsBytes(xs) + rest);
    AfterBitmap(nulls, 1, FieldsBytes(xs) + rest, d);
    BoundParams(d, |ps|, nulls, FieldsBytes(xs) + rest, FieldsOf(xs), rest);
    ValuesReadBack(ps, xs, nulls, rest);
  }

  lemma AfterBitmap(nulls: bytes, flag: byte, rest: bytes, d: bytes)
    requires d == nulls + ([flag] + rest)
    ensures |d| >= |nulls| + 1 && d[..|nulls|] == nulls && d[|nulls|] == flag && d[|nulls| + 1..] == rest
  {
  }

  lemma BoundParams(d: bytes, n: nat, nulls: bytes, tail: bytes, fs: seq<Field>, rest: bytes)
    requires |nulls| == BitmapByteSize(n) && |d| >= |nulls| + 1 && d[..|nulls|] == nulls && d[|nulls|] == 1
    requires d[|nulls| + 1..] == tail && ReadFields(tail, n) == Some((fs, rest))
    ensures ReadParams(d, n) == ReadValues(fs, nulls, 0, rest)
  {
  }

  lemma ValuesReadBack(ps: seq<Param>, xs: seq<Piece>, nulls: bytes, rest: bytes)
    requires ParamsOk(ps) && NullsOf(nulls, ps, 0) && xs == PiecesOf(ps) && rest == PieceValues(xs)
    ensures ReadValues(FieldsOf(xs), nulls, 0, rest) == Some(Received(ps)) <==> Readable(ps)
  {
    if Readable(ps) {
      ValuesRead(ps, nulls, 0, rest);
    } else {
      var j: nat :| j < |ps| && ps[j].value.Typed? && !IsText(ps[j].value.tp);
      OneUnread(ps, xs, nulls, rest, j);
    }
  }

  lemma OneUnread(ps: seq<Param>, xs: seq<Piece>, nulls: bytes, d: bytes, j: nat)
    requires ParamsOk(ps) && NullsOf(nulls, ps, 0) && xs == PiecesOf(ps)
    requires j < |ps| && ps[j].value.Typed? && !IsText(ps[j].value.tp)
    ensures ReadValues(FieldsOf(xs), nulls, 0, d) != Some(Received(ps))
  {
    FieldAt(ps, j);
    assert !IsBitSet(nulls, 0 + j);
    NotReceived(FieldsOf(xs), nulls, d, j, Received(ps));
  }

  lemma NotReceived(fs: seq<Field>, nulls: bytes, d: bytes, j: nat, rs: seq<Param>)
    requires |fs| == |rs| <= 8 * |nulls| && j < |fs| && !IsBitSet(nulls, j) && !IsText(fs[j].tp) && rs[j].value.Typed?
    ensures ReadValues(fs, nulls, 0, d) != Some(rs)
  {
    if ReadValues(fs, nulls, 0, d).Some? { UnreadValue(fs, nulls, 0, d, j); }
  }

  /** All arguments are nil: the packet has no types, and attributes are not read from it. */
  lemma BareRead(args: seq<Arg>, qs: seq<Attribute>, nulls: bytes, ps: seq<Param>, d: bytes)
    requires AllNil(args) && args != [] && ps == Sent(args, qs)
    requires nulls == PackBits(Flags(args, |qs|)) && d == nulls + [0]
    ensures ReadParams(d, |ps|) == Some(Received(ps)) <==> qs == []
  {
    NullsPacked(args, qs, nulls, ps);
    var m := |nulls|;
    assert d[..m] == nulls && d[m] == 0;
    if qs == [] {
      NilsReceived(args, ps);
      forall i | 0 <= i < |ps| ensures IsBitSet(nulls, i) { AllNilAt(args, i); assert IsBitSet(nulls, 0 + i); }
    } else {
      SentAt(args, qs, |args|);
      assert !IsBitSet(nulls, 0 + |args|);
    }
  }

  lemma {:induction false} AllNilAt(args: seq<Arg>, i: nat)
    requires AllNil(args) && i < |args|
    ensures args[i].Nil? && Sent(args, [])[i] == Param([], Nil)
  {
    SentAt(args, [], i);
    if i > 0 { AllNilAt(args[1..], i - 1); }
  }

  lemma NilsReceived(args: seq<Arg>, ps: seq<Param>)
    requires AllNil(args) && ps == Sent(args, [])
    ensures Received(ps) == Unnamed(Nils(|ps|))
  {
    forall i | 0 <= i < |ps| ensures Received(ps)[i] == Unnamed(Nils(|ps|))[i] {
      AllNilAt(args, i);
      UnnamedAt(Nils(|ps|), i);
    }
  }

  lemma HeadSeen(id: nat, n: nat, body: bytes)
    ensures var d := Head(id, n) + body;
      |d| >= 9 && d[..4] == LE(4, id) && d[4] == (if n > 0 then 8 else 0)
      && d[5] == 1 && d[6] == 0 && d[7] == 0 && d[8] == 0 && d[9..] == body
  {
  }

  /**
   A reader of the protocol gets arguments and attributes back, in order and with their names,
   exactly when typed texts have a type that is read as one, or when all arguments are nil and
   there are no attributes: a call whose arguments are all nil loses them.
   */
  lemma AttributesCross(id: nat, args: seq<Arg>, qs: seq<Attribute>)
    requires ArgsOk(args) && AttributesOk(qs) && |args| + |qs| < Pow256(8)
    ensures ReadExecute(Packet(id, args, qs, true)) == Some(Received(Sent(args, qs))) <==> Crossing(args, qs)
  {
    if args == [] {
      EmptyCross(id, qs);
    } else {
      SomeSeen(id, args, qs, Sent(args, qs), Packet(id, args, qs, true));
    }
  }

  lemma EmptyCross(id: nat, qs: seq<Attribute>)
    requires AttributesOk(qs) && |qs| < Pow256(8)
    ensures ReadExecute(Packet(id, [], qs, true)) == Some(Received(Sent([], qs))) <==> qs == []
  {
    NothingSeen(id, Packet(id, [], qs, true));
    assert |Received(Sent([], qs))| == |qs|;
  }

  /** Which packets are read as they were meant. */
  ghost predicate Crossing(args: seq<Arg>, qs: seq<Attribute>) { if AllNil(args) then qs == [] else Bindable(args) }

  lemma SomeCross(args: seq<Arg>, qs: seq<Attribute>, ps: seq<Param>, body: bytes, d: bytes)
    requires ArgsOk(args) && AttributesOk(qs) && args != [] && ps == Sent(args, qs) && body == Params(args, qs, true)
    requires ReadExecute(d) == ReadParams(body, |ps|)
    ensures ReadExecute(d) == Some(Received(ps)) <==> Crossing(args, qs)
  {
    ParamsRead(args, qs, ps, body);
  }

  lemma SomeSeen(id: nat, args: seq<Arg>, qs: seq<Attribute>, ps: seq<Param>, d: bytes)
    requires ArgsOk(args) && AttributesOk(qs) && |args| + |qs| < Pow256(8) && args != [] && ps == Sent(args, qs)
    requires d == Packet(id, args, qs, true)
    ensures ReadExecute(d) == Some(Received(ps)) <==> Crossing(args, qs)
  {
    var body := PacketSeen(id, args, qs, d, |ps|);
    SomeCross(args, qs, ps, body, d);
  }

  lemma PacketSeen(id: nat, args: seq<Arg>, qs: seq<Attribute>, d: bytes, n: nat) returns (body: bytes)
    requires ArgsOk(args) && AttributesOk(qs) && n == |args| + |qs| < Pow256(8) && args != []
    requires d == Packet(id, args, qs, true)
    ensures body == Params(args, qs, true) && ReadExecute(d) == ReadParams(body, n)
  {
    body := Params(args, qs, true);
    CountSeen(id, |args|, n, body, d);
  }

  lemma NothingSeen(id: nat, d: bytes)
    requires d == Head(id, 0) + []
    ensures ReadExecute(d) == Some([])
  {
    HeadSeen(id, 0, []);
  }

  lemma ParamsRead(args: seq<Arg>, qs: seq<Attribute>, ps: seq<Param>, body: bytes)
    requires ArgsOk(args) && AttributesOk(qs) && args != [] && ps == Sent(args, qs) && body == Params(args, qs, true)
    ensures ReadParams(body, |ps|) == Some(Received(ps)) <==> if AllNil(args) then qs == [] else Bindable(args)
  {
    var nulls := PackBits(Flags(args, |qs|));
    if AllNil(args) {
      BareRead(args, qs, nulls, ps, body);
    } else {
      ParamsAre(args, qs, ps);
      NullsPacked(args, qs, nulls, ps);
      BoundRead(ps, PiecesOf(ps), nulls, body);
      ReadableSent(args, qs, ps);
    }
  }

  lemma CountSeen(id: nat, args: nat, n: nat, body: bytes, d: bytes)
    requires 0 < args && n < Pow256(8) && d == Head(id, args) + (PutLengthEncodedInt(n) + body)
    ensures ReadExecute(d) == ReadParams(body, n)
  {
    var c := PutLengthEncodedInt(n);
    HeadSeen(id, args, c + body);
    LengthEncodedIntRoundTrip(n, body);
    assert (c + body)[|c|..] == body;
  }
}
