/**
 The mysql::serialization reader (serialization/serialization.go), used for
 tagged GTID events. Integers carry their byte count as trailing one bits of
 the first byte; a message lists numbered fields and may leave some out.
 */
module Serialization {
  import opened Bytes
  import opened Bits
  import opened Lists

  /** Two error returns, and the nil dereference on a field the program has no reader for. */
  datatype Fault = Truncated | UnknownDecoding | Panic

  datatype Result<+T> = Ok(value: T, pos: nat) | Fail(why: Fault)

  // ----- variable-length integers: the format -----

  /** How many bytes the format uses: seven value bits per byte up to eight bytes, else nine. */
  function VarLength(v: nat, n: nat): (k: nat)
    requires 1 <= n <= 9
    ensures n <= k <= 9
    ensures k <= 8 ==> v < Pow2(7 * k)
    decreases 9 - n
  {
    if n == 9 || v < Pow2(7 * n) then n else VarLength(v, n + 1)
  }

  /** (v << n) with n-1 one bits below: the marked value of an n-byte integer. */
  function Mark(v: nat, n: nat): (x: nat)
    requires n >= 1
  {
    if n == 1 then 2 * v else 2 * Mark(v, n - 1) + 1
  }

  function EncodeVar(v: nat): (b: bytes)
    ensures |b| == VarLength(v, 1)
  {
    var n := VarLength(v, 1);
    if n == 9 then [0xff] + LE(8, v) else LE(n, Mark(v, n))
  }

  /** Signed values: the sign goes into the lowest value bit. */
  function ZigZag(i: int): (v: nat) {
    if i >= 0 then 2 * i else 2 * (-(i + 1)) + 1
  }

  // ----- variable-length integers: the reader -----

  /** Trailing one bits among the low `width` bits. */
  function TrailingOnes(x: nat, width: nat): (n: nat)
    ensures n <= width
  {
    if width == 0 || x % 2 == 0 then 0 else 1 + TrailingOnes(x / 2, width - 1)
  }

  /** decodeVar without the final conversion: the raw number and its shift. */
  function ReadVar(data: bytes, pos: nat): (r: Result<(nat, nat)>)
    ensures r.Ok? ==> pos < r.pos <= |data| && 1 <= r.value.1 <= 9
  {
    if |data| < pos + 1 then Fail(Truncated)
    else
      var flen := TrailingOnes(data[pos], 8) + 1;
      if |data| < pos + flen then Fail(Truncated)
      else // copy into an eight-byte buffer keeps at most eight bytes
        Ok((FromLE(data[pos..pos + if flen <= 8 then flen else 8]), flen), pos + flen)
  }

  function DecodeUnsigned(data: bytes, pos: nat): (r: Result<nat>)
    ensures r.Ok? ==> pos < r.pos <= |data|
  {
    match ReadVar(data, pos)
    case Ok((tNum, flen), p) => Ok(Shr(tNum, flen), p)
    case Fail(why) => Fail(why)
  }

  function DecodeSigned(data: bytes, pos: nat): (r: Result<int>)
    ensures r.Ok? ==> pos < r.pos <= |data|
  {
    match ReadVar(data, pos)
    case Ok((tNum, flen), p) =>
      Ok(if Shr(tNum, flen) % 2 == 0 then Shr(tNum, flen + 1) else -(1 + Shr(tNum, flen + 1)), p)
    case Fail(why) => Fail(why)
  }

  // ----- arithmetic of the format -----

  lemma {:induction false} MarkBound(v: nat, n: nat, k: nat)
    requires n >= 1 && v < Pow2(k)
    ensures Mark(v, n) < Pow2(k + n)
  {
    if n > 1 { MarkBound(v, n - 1, k); }
  }

  lemma {:induction false} MarkShift(v: nat, n: nat)
    requires n >= 1
    ensures Shr(Mark(v, n), n) == v
  {
    if n > 1 {
      assert Mark(v, n) / 2 == Mark(v, n - 1);
      MarkShift(v, n - 1);
    } else {
      assert Shr(2 * v, 1) == Shr(v, 0);
    }
  }

  /** The marked value has exactly n-1 trailing ones. */
  lemma {:induction false} MarkOnes(v: nat, n: nat, width: nat)
    requires 1 <= n <= width
    ensures TrailingOnes(Mark(v, n), width) == n - 1
  {
    if n > 1 {
      assert Mark(v, n) / 2 == Mark(v, n - 1);
      MarkOnes(v, n - 1, width - 1);
    }
  }

  lemma {:induction false} MulGap(d: int, a: int, b: int)
    requires d > 0 && a < b
    ensures d * a + d <= d * b
    decreases b - a
  {
    assert d * b == d * (b - 1) + d;
    if a + 1 < b { MulGap(d, a, b - 1); }
  }

  lemma DivModUnique(x: int, d: int, k: int, r: int)
    requires d > 0 && 0 <= r < d && x == d * k + r
    ensures x / d == k && x % d == r
  {
    var k' := x / d;
    assert x == d * k' + x % d;
    if k < k' { MulGap(d, k, k'); } else if k' < k { MulGap(d, k', k); }
  }

  /** Dropping the lowest bit of a remainder. */
  lemma ModHalf(x: nat, p: nat)
    requires p > 0
    ensures x % (2 * p) == x % 2 + 2 * (x / 2 % p)
  {
    var q := x / 2;
    var k, r := q / p, q % p;
    assert q == p * k + r;
    assert (2 * p) * k == 2 * (p * k);
    DivModUnique(x, 2 * p, k, 2 * r + x % 2);
  }

  /** Only the low bits matter. */
  lemma {:induction false} LowOnes(x: nat, width: nat)
    ensures TrailingOnes(x % Pow2(width), width) == TrailingOnes(x, width)
  {
    if width > 0 {
      var p := Pow2(width - 1);
      ModHalf(x, p);
      LowOnes(x / 2, width - 1);
      OnesOfHalves(x % (2 * p), x, x / 2 % p, width);
    }
  }

  lemma OnesOfHalves(y: nat, x: nat, z: nat, width: nat)
    requires width > 0 && y == x % 2 + 2 * z && TrailingOnes(z, width - 1) == TrailingOnes(x / 2, width - 1)
    ensures TrailingOnes(y, width) == TrailingOnes(x, width)
  {
    assert y / 2 == z && y % 2 == x % 2;
  }

  lemma EncodedBytes(v: nat)
    requires VarLength(v, 1) <= 8
    ensures var n := VarLength(v, 1);
            TrailingOnes(EncodeVar(v)[0], 8) == n - 1 && FromLE(EncodeVar(v)) == Mark(v, n)
  {
    var n := VarLength(v, 1);
    MarkLowByte(v, n);
    MarkFits(v, n);
    LittleEndianRoundTrip(n, Mark(v, n));
  }

  lemma MarkLowByte(v: nat, n: nat)
    requires 1 <= n <= 8
    ensures TrailingOnes(LE(n, Mark(v, n))[0], 8) == n - 1
  {
    assert LE(n, Mark(v, n))[0] == Mark(v, n) % 256;
    assert Pow2(8) == 256;
    LowOnes(Mark(v, n), 8);
    MarkOnes(v, n, 8);
  }

  lemma MarkFits(v: nat, n: nat)
    requires n >= 1 && v < Pow2(7 * n)
    ensures Mark(v, n) < Pow256(n)
  {
    MarkBound(v, n, 7 * n);
    Pow2Bytes(n);
    assert 7 * n + n == 8 * n;
  }

  lemma ReadVarInPlace(pre: bytes, e: bytes, rest: bytes)
    requires e != [] && |e| == TrailingOnes(e[0], 8) + 1 && |e| <= 8
    ensures ReadVar(pre + e + rest, |pre|) == Ok((FromLE(e), |e|), |pre| + |e|)
  {
    Middle(pre, e, rest);
    assert (pre + e + rest)[|pre| + 0] == e[0];
  }

  /** What ReadVar sees of an encoded value of at most eight bytes. */
  lemma ReadEncoded(pre: bytes, v: nat, rest: bytes)
    requires VarLength(v, 1) <= 8
    ensures var n := VarLength(v, 1);
            ReadVar(pre + EncodeVar(v) + rest, |pre|) == Ok((Mark(v, n), n), |pre| + n)
  {
    EncodedBytes(v);
    ReadVarInPlace(pre, EncodeVar(v), rest);
  }

  lemma {:induction false} ShortForm(v: nat, n: nat)
    requires 1 <= n <= 9
    ensures VarLength(v, n) <= 8 <==> n <= 8 && v < Pow2(56)
    decreases 9 - n
  {
    if n < 9 {
      if v >= Pow2(7 * n) {
        ShortForm(v, n + 1);
        TopForm(n, Pow2(7 * n));
      } else {
        Pow2Monotone(7 * n, 56);
      }
    }
  }

  lemma TopForm(n: nat, p: nat)
    requires p == Pow2(7 * n)
    ensures n == 8 ==> p == Pow2(56)
  {
  }

  /** The nine-byte form is read from its first eight bytes and shifted by nine. */
  lemma ReadNineBytes(pre: bytes, v: nat, rest: bytes)
    requires VarLength(v, 1) == 9
    ensures var r := ReadVar(pre + EncodeVar(v) + rest, |pre|);
            r.Ok? && r.value.1 == 9 && Shr(r.value.0, 9) < Pow2(55) && Shr(r.value.0, 10) < Pow2(54)
  {
    var data := pre + EncodeVar(v) + rest;
    assert data[|pre|] == 0xff;
    AllOnes();
    EightBytes(data[|pre|..|pre| + 8]);
  }

  lemma EightBytes(eight: bytes)
    requires |eight| == 8
    ensures Shr(FromLE(eight), 9) < Pow2(55) && Shr(FromLE(eight), 10) < Pow2(54)
  {
    LittleEndianIsOnto(eight);
    Pow2Bytes(8);
    ShrBound(FromLE(eight), 9, 55);
    ShrBound(FromLE(eight), 10, 54);
  }

  lemma AllOnes()
    ensures TrailingOnes(0xff, 8) == 8
  {
  }

  /** An unsigned integer survives exactly when it needs no more than eight bytes. */
  lemma UnsignedRoundTrip(pre: bytes, v: nat, rest: bytes)
    ensures DecodeUnsigned(pre + EncodeVar(v) + rest, |pre|) == Ok(v, |pre| + |EncodeVar(v)|) <==> v < Pow2(56)
  {
    ShortForm(v, 1);
    if v < Pow2(56) {
      ReadEncoded(pre, v, rest);
      MarkShift(v, VarLength(v, 1));
    } else {
      ReadNineBytes(pre, v, rest);
      Pow2Monotone(55, 56);
    }
  }

  predicate SignedFits(i: int) { 0 <= i + Pow2(55) && i < Pow2(55) }

  lemma SignedShort(pre: bytes, i: int, rest: bytes)
    requires ZigZag(i) < Pow2(56)
    ensures DecodeSigned(pre + EncodeVar(ZigZag(i)) + rest, |pre|) == Ok(i, |pre| + |EncodeVar(ZigZag(i))|)
  {
    var v := ZigZag(i);
    ShortForm(v, 1);
    var n := VarLength(v, 1);
    ReadEncoded(pre, v, rest);
    MarkShift(v, n);
    ShrStep(Mark(v, n), n);
    UnZigZag(i);
  }

  lemma UnZigZag(i: int)
    ensures var v := ZigZag(i); i == if v % 2 == 0 then v / 2 else -(1 + v / 2)
  {
  }

  /** A signed integer survives exactly when it lies in [-2^55, 2^55). */
  lemma SignedRoundTrip(pre: bytes, i: int, rest: bytes)
    ensures DecodeSigned(pre + EncodeVar(ZigZag(i)) + rest, |pre|) == Ok(i, |pre| + |EncodeVar(ZigZag(i))|)
        <==> SignedFits(i)
  {
    assert Pow2(56) == 2 * Pow2(55);
    if SignedFits(i) {
      SignedShort(pre, i, rest);
    } else {
      SignedLong(pre, i, rest);
    }
  }

  lemma SignedLong(pre: bytes, i: int, rest: bytes)
    requires ZigZag(i) >= Pow2(56)
    ensures var r := DecodeSigned(pre + EncodeVar(ZigZag(i)) + rest, |pre|); r.Ok? && r.value != i
  {
    assert Pow2(56) == 2 * Pow2(55) && Pow2(55) == 2 * Pow2(54);
    ShortForm(ZigZag(i), 1);
    ReadNineBytes(pre, ZigZag(i), rest);
  }

  // ----- fixed-length integers -----

  function EncodeFixedByte(b: byte): (e: bytes) {
    if b < 128 then [2 * b] else [b % 64 * 4 + 1, b / 64]
  }

  function EncodeFixed(v: bytes): (e: bytes)
    ensures |e| >= |v|
  {
    if v == [] then [] else EncodeFixedByte(v[0]) + EncodeFixed(v[1..])
  }

  /** The loop of FieldIntFixed.decode from the state (pos, b); its length test comes after the first byte. */
  function ReadFixed(data: bytes, pos: nat, acc: bytes, length: int): (r: Result<bytes>)
    ensures r.Ok? ==> pos < r.pos <= |data|
    decreases |data| - pos
  {
    if |data| < pos + 1 then Fail(Truncated)
    else if data[pos] % 2 == 0 then
      var acc' := acc + [data[pos] / 2];
      if |acc'| == length then Ok(acc', pos + 1) else ReadFixed(data, pos + 1, acc', length)
    else if |data| < pos + 2 then Fail(Truncated)
    else if data[pos + 1] != 2 && data[pos + 1] != 3 then Fail(UnknownDecoding)
    else
      var acc' := acc + [data[pos] / 4 + if data[pos + 1] == 2 then 0x80 else 0xc0];
      if |acc'| == length then Ok(acc', pos + 2) else ReadFixed(data, pos + 2, acc', length)
  }

  /** FieldIntFixed.decode. */
  method DecodeFixed(data: bytes, start: nat, length: int) returns (r: Result<bytes>)
    ensures r == ReadFixed(data, start, [], length)
  {
    var pos, b := start, [];
    while true
      invariant ReadFixed(data, start, [], length) == ReadFixed(data, pos, b, length)
      decreases |data| - pos
    {
      if |data| < pos + 1 { return Fail(Truncated); }
      if data[pos] % 2 == 0 {
        b := b + [data[pos] / 2];
      } else {
        if |data| < pos + 2 { return Fail(Truncated); }
        if data[pos + 1] == 2 {
          b := b + [data[pos] / 4 + 0x80];
        } else if data[pos + 1] == 3 {
          b := b + [data[pos] / 4 + 0xc0];
        } else {
          return Fail(UnknownDecoding);
        }
        pos := pos + 1;
      }
      pos := pos + 1;
      if |b| == length { return Ok(b, pos); }
    }
  }

  /** One step of the reader over one encoded byte. */
  lemma FixedStep(pre: bytes, done: bytes, b: byte, rest: bytes, length: int)
    ensures var e := EncodeFixedByte(b);
      ReadFixed(pre + e + rest, |pre|, done, length) ==
        if |done| + 1 == length then Ok(done + [b], |pre| + |e|)
        else ReadFixed(pre + e + rest, |pre| + |e|, done + [b], length)
  {
    var e := EncodeFixedByte(b);
    Middle(pre, e, rest);
    assert (pre + e + rest)[|pre| + 0] == e[0] && (b >= 128 ==> (pre + e + rest)[|pre| + 1] == e[1]);
  }

  /** Every non-empty byte string survives the fixed-length format. */
  lemma {:induction false} FixedRoundTrip(pre: bytes, done: bytes, v: bytes, rest: bytes)
    requires v != []
    ensures ReadFixed(pre + EncodeFixed(v) + rest, |pre|, done, |done| + |v|) == Ok(done + v, |pre| + |EncodeFixed(v)|)
    decreases |v|
  {
    var e, tail := EncodeFixedByte(v[0]), EncodeFixed(v[1..]);
    ConcatPair(pre, e, tail, rest);
    FixedStep(pre, done, v[0], tail + rest, |done| + |v|);
    HeadTail(v);
    ConcatAssoc(done, [v[0]], v[1..]);
    if |v| == 1 {
      ConcatEmpty(done + [v[0]]);
    } else {
      FixedRoundTrip(pre + e, done + [v[0]], v[1..], rest);
    }
  }

  /** Bytes that end inside a value are refused. */
  lemma {:induction false} FixedCut(pre: bytes, done: bytes, v: bytes, cut: bytes, lost: bytes)
    requires v != [] && cut + lost == EncodeFixed(v) && lost != []
    ensures ReadFixed(pre + cut, |pre|, done, |done| + |v|) == Fail(Truncated)
    decreases |v|
  {
    var e, tail := EncodeFixedByte(v[0]), EncodeFixed(v[1..]);
    if |cut| < |e| {
      assert cut == (cut + lost)[..|cut|] == (e + tail)[..|cut|] == e[..|cut|];
      FirstCut(pre, done, v[0], cut, |done| + |v|);
    } else {
      var more := Beyond(e, tail, cut, lost);
      ConcatAssoc(pre, e, more);
      FixedStep(pre, done, v[0], more, |done| + |v|);
      if |v| > 1 { FixedCut(pre + e, done + [v[0]], v[1..], more, lost); }
    }
  }

  lemma FirstCut(pre: bytes, done: bytes, b: byte, cut: bytes, length: int)
    requires |cut| < |EncodeFixedByte(b)| && cut == EncodeFixedByte(b)[..|cut|]
    ensures ReadFixed(pre + cut, |pre|, done, length) == Fail(Truncated)
  {
    if cut != [] { assert (pre + cut)[|pre|] == EncodeFixedByte(b)[0]; }
  }

  lemma Beyond(e: bytes, tail: bytes, cut: bytes, lost: bytes) returns (more: bytes)
    requires cut + lost == e + tail && |e| <= |cut|
    ensures cut == e + more && more + lost == tail
  {
    more := cut[|e|..];
    assert e == (e + tail)[..|e|] == cut[..|e|];
    assert tail == (e + tail)[|e|..] == more + lost;
  }

  /** A second byte other than 2 and 3 is refused. */
  lemma UnknownSecondByte(pre: bytes, x: byte, y: byte, rest: bytes, done: bytes, length: int)
    requires x % 2 == 1 && y != 2 && y != 3
    ensures ReadFixed(pre + [x, y] + rest, |pre|, done, length) == Fail(UnknownDecoding)
  {
    var data := pre + [x, y] + rest;
    assert data[|pre|] == x && data[|pre| + 1] == y;
  }

  lemma {:induction false} FixedLength(data: bytes, pos: nat, acc: bytes, length: int)
    ensures var r := ReadFixed(data, pos, acc, length); r.Ok? ==> |r.value| == length > |acc|
    decreases |data| - pos
  {
    if pos + 1 <= |data| {
      if data[pos] % 2 == 0 {
        if |acc| + 1 != length { FixedLength(data, pos + 1, acc + [data[pos] / 2], length); }
      } else if pos + 2 <= |data| && (data[pos + 1] == 2 || data[pos + 1] == 3) && |acc| + 1 != length {
        FixedLength(data, pos + 2, acc + [data[pos] / 4 + if data[pos + 1] == 2 then 0x80 else 0xc0], length);
      }
    }
  }

  // ----- strings -----

  function EncodeString(s: bytes): (e: bytes) { EncodeVar(|s|) + s }

  /** FieldString.decode: the length is taken from one byte. */
  function DecodeString(data: bytes, pos: nat): (r: Result<bytes>)
    ensures r.Ok? ==> pos < r.pos <= |data|
  {
    if |data| < pos + 1 then Fail(Truncated)
    else
      var strLen := data[pos] / 2;
      if |data| < pos + 1 + strLen then Fail(Truncated)
      else Ok(data[pos + 1..pos + 1 + strLen], pos + 1 + strLen)
  }

  /** A string survives exactly when its length fits the one byte the reader looks at. */
  lemma StringRoundTrip(pre: bytes, s: bytes, rest: bytes)
    ensures DecodeString(pre + EncodeString(s) + rest, |pre|) == Ok(s, |pre| + |EncodeString(s)|) <==> |s| < 128
  {
    var data := pre + EncodeString(s) + rest;
    assert Pow2(7) == 128;
    if |s| < 128 {
      assert VarLength(|s|, 1) == 1;
      assert |s| * Pow2(1) + (Pow2(0) - 1) == 2 * |s|;
      assert LE(1, 2 * |s|) == [2 * |s| % 256] + LE(0, 2 * |s| / 256);
      assert EncodeString(s) == [2 * |s|] + s;
      assert data[|pre|] == 2 * |s|;
      assert data[|pre| + 1..|pre| + 1 + |s|] == s;
    }
  }

  /** So is a string whose bytes end early, and a number. */
  lemma StringCut(pre: bytes, s: bytes, k: nat)
    requires |s| < 128 && k < |EncodeString(s)|
    ensures DecodeString(pre + EncodeString(s)[..k], |pre|) == Fail(Truncated)
  {
    SmallVar(|s|);
    if k > 0 { assert (pre + EncodeString(s)[..k])[|pre|] == 2 * |s|; }
  }

  lemma NumberCut(pre: bytes, v: nat, k: nat)
    requires k < |EncodeVar(v)|
    ensures ReadVar(pre + EncodeVar(v)[..k], |pre|) == Fail(Truncated)
  {
    if k > 0 {
      assert (pre + EncodeVar(v)[..k])[|pre|] == EncodeVar(v)[0];
      if VarLength(v, 1) <= 8 { EncodedBytes(v); } else { AllOnes(); }
    }
  }

  // ----- messages -----

  datatype FieldType = FixedField(length: nat) | IntField | UintField | StringField | Untyped

  datatype FieldValue = FixedValue(b: bytes) | IntValue(i: int) | UintValue(u: nat) | StringValue(s: bytes)

  /** A field of the wanted type whose value the reader can recover. */
  predicate Fits(t: FieldType, v: FieldValue) {
    match t
    case FixedField(n) => v.FixedValue? && |v.b| == n > 0
    case IntField => v.IntValue? && SignedFits(v.i)
    case UintField => v.UintValue? && v.u < Pow2(56)
    case StringField => v.StringValue? && |v.s| < 128
    case Untyped => false
  }

  function EncodeValue(v: FieldValue): (e: bytes) {
    match v
    case FixedValue(b) => EncodeFixed(b)
    case IntValue(i) => EncodeVar(ZigZag(i))
    case UintValue(u) => EncodeVar(u)
    case StringValue(s) => EncodeString(s)
  }

  /** The fields present, each after its number. */
  function EncodeFields(vs: Slots, i: nat): (e: bytes) {
    if vs == [] then []
    else (if vs[0].None? then [] else EncodeVar(i) + EncodeValue(vs[0].value)) + EncodeFields(vs[1..], i + 1)
  }

  /** The numbers of the fields present fit the one byte the reader looks at. */
  predicate Numbered(vs: Slots, i: nat) { vs == [] || ((vs[0].Some? ==> i < 128) && Numbered(vs[1..], i + 1)) }

  lemma SmallVar(v: nat)
    requires v < 128
    ensures EncodeVar(v) == [2 * v]
  {
    assert Pow2(7 * 1) == 128;
    assert VarLength(v, 1) == 1;
    assert LE(1, 2 * v) == [2 * v % 256] + LE(0, 2 * v / 256);
  }

  function Wrapped<T>(r: Result<T>, f: T -> FieldValue): (w: Result<FieldValue>) {
    match r
    case Ok(v, p) => Ok(f(v), p)
    case Fail(why) => Fail(why)
  }

  /** The decode method of a field's type; a field without one is a nil dereference. */
  function DecodeField(t: FieldType, data: bytes, pos: nat): (r: Result<FieldValue>)
    ensures r.Ok? ==> pos < r.pos <= |data|
  {
    match t
    case FixedField(n) => Wrapped(ReadFixed(data, pos, [], n), b => FixedValue(b))
    case IntField => Wrapped(DecodeSigned(data, pos), i => IntValue(i))
    case UintField => Wrapped(DecodeUnsigned(data, pos), u => UintValue(u))
    case StringField => Wrapped(DecodeString(data, pos), s => StringValue(s))
    case Untyped => Fail(Panic)
  }

  type Slots = seq<Option<FieldValue>>

  function Prepend(done: Slots, r: Result<Slots>): (w: Result<Slots>) {
    match r
    case Ok(vs, p) => Ok(done + vs, p)
    case Fail(why) => Fail(why)
  }

  lemma PrependStep(done: Slots, x: Option<FieldValue>, r: Result<Slots>)
    ensures Prepend(done, Prepend([x], r)) == Prepend(done + [x], r)
  {
    if r.Ok? { ConcatAssoc(done, [x], r.value); }
  }

  /** Field i of Unmarshal's loop: skipped when the next number is not i, else decoded. */
  function DecodeFields(ts: seq<FieldType>, data: bytes, pos: nat, i: nat): (r: Result<Slots>)
    requires pos <= |data|
    decreases |ts|
  {
    if ts == [] then Ok([], pos)
    else if pos + 1 > |data| || data[pos] / 2 != i then Prepend([None], DecodeFields(ts[1..], data, pos, i + 1))
    else match DecodeField(ts[0], data, pos + 1)
      case Ok(v, p) => Prepend([Some(v)], DecodeFields(ts[1..], data, p, i + 1))
      case Fail(why) => Fail(why)
  }

  datatype Message = Message(version: nat, size: nat, lastNonIgnorable: nat, fields: Slots)

  /** The format of a message: three variable-length numbers, then the fields. */
  function EncodeMessage(m: Message): (b: bytes) {
    EncodeVar(m.version) + EncodeVar(m.size) + EncodeVar(m.lastNonIgnorable) + EncodeFields(m.fields, 0)
  }

  /** The header numbers fit the one byte that the reader takes for each. */
  predicate ShortHeader(m: Message) { m.version < 128 && m.size < 128 && m.lastNonIgnorable < 128 }

  function WithFields(header: bytes, r: Result<Slots>): (m: Result<Message>)
    requires |header| == 3
  {
    match r
    case Ok(fields, pos) => Ok(Message(header[0] / 2, header[1] / 2, header[2] / 2, fields), 3 + pos)
    case Fail(why) => Fail(why)
  }

  /** Unmarshal on a *Message: one byte for each header number, then the fields. */
  function Unmarshal(ts: seq<FieldType>, data: bytes): (r: Result<Message>)
  {
    if |data| < 3 then Fail(Panic) else WithFields(data[..3], DecodeFields(ts, data[3..], 0, 0))
  }

  lemma FieldRoundTrip(t: FieldType, v: FieldValue, pre: bytes, rest: bytes)
    requires Fits(t, v)
    ensures DecodeField(t, pre + EncodeValue(v) + rest, |pre|) == Ok(v, |pre| + |EncodeValue(v)|)
  {
    match t {
      case FixedField(n) => FixedFieldBack(n, v.b, pre, rest);
      case IntField => SignedRoundTrip(pre, v.i, rest);
      case UintField => UnsignedRoundTrip(pre, v.u, rest);
      case StringField => StringRoundTrip(pre, v.s, rest);
    }
  }

  lemma FixedFieldBack(n: nat, b: bytes, pre: bytes, rest: bytes)
    requires |b| == n > 0
    ensures DecodeField(FixedField(n), pre + EncodeFixed(b) + rest, |pre|)
         == Ok(FixedValue(b), |pre| + |EncodeFixed(b)|)
  {
    FixedRoundTrip(pre, [], b, rest);
    assert [] + b == b;
  }

  /** The next number in the message is larger than every field already passed, or there is none. */
  lemma {:induction false} NextNumber(vs: Slots, i: nat)
    requires Numbered(vs, i)
    ensures EncodeFields(vs, i) == [] || EncodeFields(vs, i)[0] >= 2 * i
  {
    if vs != [] {
      NextNumber(vs[1..], i + 1);
      if vs[0].Some? { SmallVar(i); }
    }
  }

  lemma SkippedField(ts: seq<FieldType>, pre: bytes, tail: bytes, i: nat)
    requires ts != [] && (tail == [] || tail[0] >= 2 * (i + 1))
    ensures DecodeFields(ts, pre + tail, |pre|, i) == Prepend([None], DecodeFields(ts[1..], pre + tail, |pre|, i + 1))
  {
  }

  lemma PresentStep(ts: seq<FieldType>, v: FieldValue, data: bytes, pos: nat, next: nat, i: nat)
    requires ts != [] && pos < |data| && data[pos] == 2 * i && next <= |data|
    requires DecodeField(ts[0], data, pos + 1) == Ok(v, next)
    ensures DecodeFields(ts, data, pos, i) == Prepend([Some(v)], DecodeFields(ts[1..], data, next, i + 1))
  {
  }

  lemma EncodeFieldsStep(vs: Slots, i: nat)
    requires vs != [] && (vs[0].Some? ==> i < 128)
    ensures EncodeFields(vs, i) ==
      if vs[0].None? then EncodeFields(vs[1..], i + 1)
      else [2 * i] + EncodeValue(vs[0].value) + EncodeFields(vs[1..], i + 1)
  {
    if vs[0].Some? { SmallVar(i); }
    assert [] + EncodeFields(vs[1..], i + 1) == EncodeFields(vs[1..], i + 1);
  }

  lemma MissingFirst(ts: seq<FieldType>, vs: Slots, pre: bytes, i: nat, tail: bytes)
    requires |ts| == |vs| > 0 && Numbered(vs[1..], i + 1) && vs[0].None? && tail == EncodeFields(vs[1..], i + 1)
    requires DecodeFields(ts[1..], pre + tail, |pre|, i + 1) == Ok(vs[1..], |pre + tail|)
    ensures DecodeFields(ts, pre + tail, |pre|, i) == Ok(vs, |pre + tail|)
  {
    NextNumber(vs[1..], i + 1);
    SkippedField(ts, pre, tail, i);
    HeadTail(vs);
  }

  lemma PresentJoins(ts: seq<FieldType>, vs: Slots, data: bytes, pos: nat, next: nat, i: nat)
    requires |ts| == |vs| > 0 && vs[0].Some? && pos < |data| && data[pos] == 2 * i && next <= |data|
    requires DecodeField(ts[0], data, pos + 1) == Ok(vs[0].value, next)
    requires DecodeFields(ts[1..], data, next, i + 1) == Ok(vs[1..], |data|)
    ensures DecodeFields(ts, data, pos, i) == Ok(vs, |data|)
  {
    PresentStep(ts, vs[0].value, data, pos, next, i);
    HeadTail(vs);
  }

  lemma FieldThere(t: FieldType, v: FieldValue, front: bytes, e: bytes, tail: bytes, data: bytes, next: nat)
    requires Fits(t, v) && e == EncodeValue(v) && data == front + e + tail && next == |front| + |e|
    ensures next <= |data| && DecodeField(t, data, |front|) == Ok(v, next)
  {
    FieldRoundTrip(t, v, front, tail);
  }

  lemma PresentSplit(t: FieldType, v: FieldValue, pre: bytes, i: nat, tail: bytes, data: bytes) returns (front: bytes)
    requires i < 128 && Fits(t, v) && data == pre + ([2 * i] + EncodeValue(v) + tail)
    ensures data == front + tail && |pre| < |front| <= |data| && data[|pre|] == 2 * i
    ensures DecodeField(t, data, |pre| + 1) == Ok(v, |front|)
  {
    var e := EncodeValue(v);
    ConcatRegroup(pre, [2 * i], e, tail);
    front := pre + [2 * i] + e;
    NumberInPlace(pre, 2 * i, e, tail);
    FieldThere(t, v, pre + [2 * i], e, tail, data, |front|);
  }

  lemma NumberInPlace(pre: bytes, x: byte, e: bytes, tail: bytes)
    ensures (pre + [x] + e + tail)[|pre|] == x
  {
  }

  predicate AllFit(ts: seq<FieldType>, vs: Slots)
    requires |ts| == |vs|
  {
    ts == [] || ((vs[0].Some? ==> Fits(ts[0], vs[0].value)) && AllFit(ts[1..], vs[1..]))
  }

  /** Whatever subset of the fields a message carries, each comes back in its own slot and the others are skipped. */
  lemma {:induction false} FieldsRoundTrip(ts: seq<FieldType>, vs: Slots, pre: bytes, i: nat, data: bytes)
    requires |ts| == |vs| && Numbered(vs, i) && AllFit(ts, vs) && data == pre + EncodeFields(vs, i)
    ensures DecodeFields(ts, data, |pre|, i) == Ok(vs, |data|)
    decreases |ts|, 1
  {
    if ts == [] {
      ConcatEmpty(pre);
    } else {
      EncodeFieldsStep(vs, i);
      if vs[0].None? {
        MissingRoundTrip(ts, vs, pre, i, EncodeFields(vs[1..], i + 1));
      } else {
        PresentRoundTrip(ts, vs, pre, i, EncodeFields(vs[1..], i + 1), data);
      }
    }
  }

  lemma {:induction false} MissingRoundTrip(ts: seq<FieldType>, vs: Slots, pre: bytes, i: nat, tail: bytes)
    requires |ts| == |vs| > 0 && Numbered(vs[1..], i + 1) && AllFit(ts[1..], vs[1..]) && vs[0].None?
    requires tail == EncodeFields(vs[1..], i + 1)
    ensures DecodeFields(ts, pre + tail, |pre|, i) == Ok(vs, |pre + tail|)
    decreases |ts|, 0
  {
    FieldsRoundTrip(ts[1..], vs[1..], pre, i + 1, pre + tail);
    MissingFirst(ts, vs, pre, i, tail);
  }

  lemma {:induction false} PresentRoundTrip(ts: seq<FieldType>, vs: Slots, pre: bytes, i: nat, tail: bytes, data: bytes)
    requires |ts| == |vs| > 0 && i < 128 && Numbered(vs[1..], i + 1) && AllFit(ts[1..], vs[1..])
    requires vs[0].Some? && Fits(ts[0], vs[0].value)
    requires tail == EncodeFields(vs[1..], i + 1) && data == pre + ([2 * i] + EncodeValue(vs[0].value) + tail)
    ensures DecodeFields(ts, data, |pre|, i) == Ok(vs, |data|)
    decreases |ts|, 0
  {
    var front := PresentSplit(ts[0], vs[0].value, pre, i, tail, data);
    FieldsRoundTrip(ts[1..], vs[1..], front, i + 1, data);
    PresentJoins(ts, vs, data, |pre|, |front|, i);
  }

  // ----- and nothing else is recovered -----

  /** A field that comes back was one that fits. */
  lemma RecoveredFits(t: FieldType, v: FieldValue, pre: bytes, rest: bytes)
    requires var r := DecodeField(t, pre + EncodeValue(v) + rest, |pre|); r.Ok? && r.value == v
    ensures Fits(t, v)
  {
    match t {
      case FixedField(n) => FixedLength(pre + EncodeValue(v) + rest, |pre|, [], n);
      case IntField => SignedRecovered(v, pre, rest);
      case UintField => UnsignedRecovered(v, pre, rest);
      case StringField => ShortString(pre + EncodeValue(v) + rest, |pre|);
    }
  }

  lemma SignedRecovered(v: FieldValue, pre: bytes, rest: bytes)
    requires var r := DecodeField(IntField, pre + EncodeValue(v) + rest, |pre|); r.Ok? && r.value == v
    ensures Fits(IntField, v)
  {
    if !SignedFits(v.i) { WideSigned(pre, v.i, rest); }
  }

  lemma UnsignedRecovered(v: FieldValue, pre: bytes, rest: bytes)
    requires var r := DecodeField(UintField, pre + EncodeValue(v) + rest, |pre|); r.Ok? && r.value == v
    ensures Fits(UintField, v)
  {
    if v.u >= Pow2(56) { UnsignedLong(pre, v.u, rest); }
  }

  lemma ShortString(data: bytes, pos: nat)
    requires DecodeString(data, pos).Ok?
    ensures |DecodeString(data, pos).value| < 128
  {
  }

  lemma WideSigned(pre: bytes, i: int, rest: bytes)
    requires !SignedFits(i)
    ensures var r := DecodeSigned(pre + EncodeVar(ZigZag(i)) + rest, |pre|); r.Ok? && r.value != i
  {
    assert Pow2(56) == 2 * Pow2(55);
    SignedLong(pre, i, rest);
  }

  lemma UnsignedLong(pre: bytes, v: nat, rest: bytes)
    requires v >= Pow2(56)
    ensures var r := DecodeUnsigned(pre + EncodeVar(v) + rest, |pre|); r.Ok? && r.value != v
  {
    ShortForm(v, 1);
    ReadNineBytes(pre, v, rest);
    Pow2Monotone(55, 56);
  }

  /** Fields that come back were all numbered below 128 and fit. */
  lemma {:induction false} RecoveredFields(ts: seq<FieldType>, vs: Slots, pre: bytes, i: nat, data: bytes)
    requires |ts| == |vs| && data == pre + EncodeFields(vs, i)
    requires var r := DecodeFields(ts, data, |pre|, i); r.Ok? && r.value == vs
    ensures Numbered(vs, i) && AllFit(ts, vs)
    decreases |ts|
  {
    if ts != [] {
      var tail := EncodeFields(vs[1..], i + 1);
      FirstSlot(ts, vs, data, |pre|, i);
      EncodeFieldsStep(vs, i);
      if vs[0].None? {
        RecoveredFields(ts[1..], vs[1..], pre, i + 1, data);
      } else {
        var front := PresentHere(ts[0], vs[0].value, pre, i, tail, data);
        RecoveredFields(ts[1..], vs[1..], front, i + 1, data);
      }
    }
  }

  /** What the first slot tells about the step of the loop. */
  lemma FirstSlot(ts: seq<FieldType>, vs: Slots, data: bytes, pos: nat, i: nat)
    requires |ts| == |vs| > 0 && pos <= |data|
    requires var r := DecodeFields(ts, data, pos, i); r.Ok? && r.value == vs
    ensures vs[0].None? ==> var r := DecodeFields(ts[1..], data, pos, i + 1); r.Ok? && r.value == vs[1..]
    ensures vs[0].Some? ==>
      && i < 128
      && var f := DecodeField(ts[0], data, pos + 1);
         f.Ok? && f.value == vs[0].value && f.pos <= |data| &&
         var r := DecodeFields(ts[1..], data, f.pos, i + 1);
         r.Ok? && r.value == vs[1..]
  {
    var r := DecodeFields(ts, data, pos, i);
    assert r.value[1..] == vs[1..];
  }

  lemma PresentHere(t: FieldType, v: FieldValue, pre: bytes, i: nat, tail: bytes, data: bytes) returns (front: bytes)
    requires i < 128 && data == pre + ([2 * i] + EncodeValue(v) + tail)
    requires var f := DecodeField(t, data, |pre| + 1); f.Ok? && f.value == v
    ensures Fits(t, v) && data == front + tail && DecodeField(t, data, |pre| + 1).pos == |front|
  {
    ConcatRegroup(pre, [2 * i], EncodeValue(v), tail);
    RecoveredFits(t, v, pre + [2 * i], tail);
    front := PresentSplit(t, v, pre, i, tail, data);
  }

  // ----- whole messages -----

  /**
   A message comes back, header numbers and whatever subset of the fields it carries,
   exactly when its header and field numbers are below 128 and its fields fit.
   */
  lemma MessageRoundTrip(ts: seq<FieldType>, m: Message)
    requires |ts| == |m.fields|
    ensures Unmarshal(ts, EncodeMessage(m)) == Ok(m, |EncodeMessage(m)|)
       <==> ShortHeader(m) && Numbered(m.fields, 0) && AllFit(ts, m.fields)
  {
    var data, b := EncodeFields(m.fields, 0), EncodeMessage(m);
    assert [] + data == data;
    if ShortHeader(m) {
      ShortHeaderBytes(m);
      var header: bytes := [2 * m.version, 2 * m.size, 2 * m.lastNonIgnorable];
      MessageParts(ts, m, header, data);
      if Numbered(m.fields, 0) && AllFit(ts, m.fields) { FieldsRoundTrip(ts, m.fields, [], 0, data); }
      if Unmarshal(ts, b) == Ok(m, |b|) { RecoveredFields(ts, m.fields, [], 0, data); }
    } else {
      HeaderIsShort(ts, b);
    }
  }

  lemma ShortHeaderBytes(m: Message)
    requires ShortHeader(m)
    ensures EncodeMessage(m) == [2 * m.version, 2 * m.size, 2 * m.lastNonIgnorable] + EncodeFields(m.fields, 0)
  {
    SmallVar(m.version);
    SmallVar(m.size);
    SmallVar(m.lastNonIgnorable);
  }

  lemma HeaderIsShort(ts: seq<FieldType>, b: bytes)
    ensures Unmarshal(ts, b).Ok? ==> ShortHeader(Unmarshal(ts, b).value)
  {
  }

  lemma MessageParts(ts: seq<FieldType>, m: Message, header: bytes, data: bytes)
    requires ShortHeader(m) && header == [2 * m.version, 2 * m.size, 2 * m.lastNonIgnorable]
    ensures Unmarshal(ts, header + data) == Ok(m, |header + data|)
       <==> DecodeFields(ts, data, 0, 0) == Ok(m.fields, |data|)
  {
    assert (header + data)[3..] == data && (header + data)[..3] == header;
  }

  /** From a size of 128 on the fields are looked for inside the header: one field, lost without an error. */
  lemma FieldDropped()
    ensures var m := Message(1, 128, 1, [Some(UintValue(0))]);
      Unmarshal([UintField], EncodeMessage(m)) == Ok(Message(1, 0, 1, [None]), 3)
  {
    var m := Message(1, 128, 1, [Some(UintValue(0))]);
    SmallVar(1);
    SmallVar(0);
    TwoByteVar();
    assert m.fields[1..] == [] && EncodeFields([], 1) == [];
    assert EncodeFields(m.fields, 0) == [0] + [0] + [];
    assert EncodeMessage(m) == [2] + [1, 2] + [2] + [0, 0];
    ReadInsideHeader([2, 1, 2, 2, 0, 0]);
  }

  lemma TwoByteVar()
    ensures EncodeVar(128) == [1, 2]
  {
    assert Pow2(7 * 1) == 128 && Pow2(7 * 2) == 16384;
    assert VarLength(128, 2) == 2 && VarLength(128, 1) == 2;
    assert Mark(128, 2) == 2 * Mark(128, 1) + 1 == 513;
    assert LE(2, 513) == [1] + LE(1, 2) && LE(1, 2) == [2] + LE(0, 0);
  }

  lemma ReadInsideHeader(b: bytes)
    requires b == [2, 1, 2, 2, 0, 0]
    ensures Unmarshal([UintField], b) == Ok(Message(1, 0, 1, [None]), 3)
  {
    var data := b[3..];
    assert data[0] == 2 && [UintField][1..] == [];
    assert DecodeFields([], data, 0, 1) == Ok([], 0);
    assert DecodeFields([UintField], data, 0, 0) == Prepend([None], Ok([], 0));
    var skipped: Slots := [None];
    ConcatEmpty(skipped);
  }

  /** Unmarshal as written: one loop over the wanted fields and one cursor. */
  method UnmarshalMessage(ts: seq<FieldType>, message: bytes) returns (r: Result<Message>)
    ensures r == Unmarshal(ts, message)
  {
    if |message| < 3 { return Fail(Panic); }
    var version, size, last := message[0] / 2, message[1] / 2, message[2] / 2;
    var fields := UnmarshalFields(ts, message[3..]);
    r := if fields.Fail? then Fail(fields.why) else Ok(Message(version, size, last, fields.value), 3 + fields.pos);
  }

  /** The loop over the fields. */
  method UnmarshalFields(ts: seq<FieldType>, data: bytes) returns (r: Result<Slots>)
    ensures r == DecodeFields(ts, data, 0, 0)
  {
    var pos: nat, i: nat, fields: Slots := 0, 0, [];
    ghost var goal := DecodeFields(ts, data, 0, 0);
    assert ts[0..] == ts;
    assert goal.Ok? ==> [] + goal.value == goal.value;
    while i < |ts|
      invariant 0 <= i <= |ts| && pos <= |data|
      invariant goal == Prepend(fields, DecodeFields(ts[i..], data, pos, i))
    {
      assert ts[i..][0] == ts[i] && ts[i..][1..] == ts[i + 1..];
      if pos + 1 > |data| || data[pos] / 2 != i {
        PrependStep(fields, None, DecodeFields(ts[i + 1..], data, pos, i + 1));
        fields := fields + [None];
      } else {
        var v := DecodeField(ts[i], data, pos + 1);
        if v.Fail? { return Fail(v.why); }
        PrependStep(fields, Some(v.value), DecodeFields(ts[i + 1..], data, v.pos, i + 1));
        fields := fields + [Some(v.value)];
        pos := v.pos;
      }
      i := i + 1;
    }
    assert ts[i..] == [] && fields + [] == fields;
    r := Ok(fields, pos);
  }
}
