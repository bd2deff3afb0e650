/**
 decodeValue in replication/row_event.go: one column value of a row image, by
 column type and metadata. Temporal values are kept as fields and floating
 point values as bits; their rendering as text is not modelled.
 */
module RowValue {
  import opened Bytes
  import opened Lists
  import Jsonb
  import JsonbEncoder
  import PackedDecimal
  import Time2Column

  const TINY: byte := 1
  const SHORT: byte := 2
  const LONG: byte := 3
  const FLOAT: byte := 4
  const DOUBLE: byte := 5
  const NULL: byte := 6
  const TIMESTAMP: byte := 7
  const LONGLONG: byte := 8
  const INT24: byte := 9
  const DATE: byte := 10
  const TIME: byte := 11
  const DATETIME: byte := 12
  const YEAR: byte := 13
  const VARCHAR: byte := 15
  const BIT: byte := 16
  const TIMESTAMP2: byte := 17
  const DATETIME2: byte := 18
  const TIME2: byte := 19
  const VECTOR: byte := 0xf2
  const JSON: byte := 0xf5
  const NEWDECIMAL: byte := 0xf6
  const ENUM: byte := 0xf7
  const SET: byte := 0xf8
  const BLOB: byte := 0xfc
  const VAR_STRING: byte := 0xfd
  const STRING: byte := 0xfe
  const GEOMETRY: byte := 0xff

  datatype Column = Column(tp: byte, meta: nat, unsigned: bool)

  datatype Value =
    | Nil
    | Int(i: int)
    | Float(bits: nat)
    | Double(bits: nat)
    | Decimal(text: string)
    | Stamp(sec: nat, usec: nat)
    | Moment(year: nat, month: nat, day: nat, hour: nat, minute: nat, second: nat, usec: nat)
    | Day(year: nat, month: nat, day: nat)
    | Clock(time: Time2Column.Time)
    | Str(s: bytes)
    | Blob(b: bytes)
    | Json(j: Jsonb.Json)
    | EmptyJson

  /** Fault is an error return or a recovered panic; Hang is a JSON document that points back at itself. */
  datatype Read<+T> = Ok(value: T, n: nat) | Fault | Hang

  // ----- the decoder -----

  /** The type and length packed into the metadata of a STRING column. */
  function StringLayout(meta: nat): (r: (byte, nat))
    requires meta < 0x1_0000
  {
    if meta < 256 then (STRING, meta)
    else
      var b0, b1 := meta / 256, meta % 256;
      var missing := 3 - b0 / 16 % 4; // the two bits that are not both set
      if missing == 0 then (b0, b1) else (b0 + 16 * missing, b1 + 256 * missing)
  }

  function IntWidth(tp: byte): (n: nat) {
    if tp == TINY then 1 else if tp == SHORT then 2 else if tp == INT24 then 3 else if tp == LONG then 4
    else if tp == LONGLONG then 8 else 0
  }

  function DecodeInt(data: bytes, n: nat, unsigned: bool): (r: Read<Value>) {
    if |data| < n then Fault
    else
      var u := FromLE(data[..n]);
      Ok(Int(if unsigned then u else ToSigned(n, u)), n)
  }

  /** decodeBit and littleDecodeBit, which end in a conversion to int64. */
  function DecodeBits(data: bytes, n: nat, bigEndian: bool): (r: Read<Value>) {
    if !(1 <= n <= 8) || |data| < n then Fault
    else Ok(Int(ToSigned(8, if bigEndian then FromBE(data[..n]) else FromLE(data[..n]))), n)
  }

  function DecodeEnum(data: bytes, n: nat): (r: Read<Value>) {
    if !(1 <= n <= 2) || |data| < n then Fault else Ok(Int(FromLE(data[..n])), n)
  }

  /** A length of k bytes and that many bytes after it. */
  function LengthPrefixed(data: bytes, k: nat): (r: Read<bytes>)
    ensures r.Ok? ==> r.n == k + |r.value| <= |data|
  {
    if |data| < k || |data| < k + FromLE(data[..k]) then Fault
    else Ok(data[k..k + FromLE(data[..k])], k + FromLE(data[..k]))
  }

  function DecodeString(data: bytes, length: nat): (r: Read<Value>) {
    match LengthPrefixed(data, if length < 256 then 1 else 2)
    case Ok(s, n) => Ok(Str(s), n)
    case _ => Fault
  }

  function DecodeBlob(data: bytes, meta: nat): (r: Read<Value>) {
    if !(1 <= meta <= 4) then Fault
    else match LengthPrefixed(data, meta)
      case Ok(b, n) => Ok(Blob(b), n)
      case _ => Fault
  }

  function DecodeJson(data: bytes, meta: nat, ignore: bool): (r: Read<Value>) {
    if |data| < meta then Fault
    else
      var length := FromLE(data[..if meta <= 8 then meta else 8]);
      if length == 0 then Ok(EmptyJson, meta)
      else if |data| < meta + length then Fault
      else match Jsonb.DecodeDocument(data[meta..meta + length], ignore)
        case Ok(j) => Ok(Json(j), meta + length)
        case Bad => Fault
        case Loops => Hang
  }

  function DecodeDecimal(data: bytes, meta: nat): (r: Read<Value>) {
    match PackedDecimal.Decode(data, meta / 256 % 256, meta % 256)
    case Some((text, n)) => Ok(Decimal(text), n)
    case None => Fault
  }

  /** Microseconds in one unit of a stored fraction, and the bytes it takes. */
  function FractionUnit(dec: nat): (u: nat)
    ensures u > 0
  {
    if dec == 1 || dec == 2 then 1_0000 else if dec == 3 || dec == 4 then 100 else 1
  }

  function FractionBytes(dec: nat): (n: nat) {
    if 1 <= dec <= 6 then (dec + 1) / 2 else 0
  }

  function Fraction(data: bytes, at: nat, dec: nat): (usec: nat)
    requires at + FractionBytes(dec) <= |data|
  {
    FromBE(data[at..at + FractionBytes(dec)]) * FractionUnit(dec)
  }

  function DecodeTimestamp2(data: bytes, dec: nat): (r: Read<Value>) {
    if |data| < 4 + FractionBytes(dec) then Fault
    else Ok(Stamp(FromBE(data[..4]), Fraction(data, 4, dec)), 4 + (dec + 1) / 2)
  }

  /** decodeDatetime2: the bit fields of the magnitude of a biased number. */
  function DatetimeFields(intPart: int, usec: nat): (v: Value) {
    var tmp := intPart * 0x100_0000 + usec;
    MomentOf((if tmp < 0 then -tmp else tmp) / 0x100_0000, usec)
  }

  function MomentOf(ymdhms: nat, usec: nat): (v: Value) {
    var ymd, hms := ymdhms / 0x2_0000, ymdhms % 0x2_0000;
    Moment(ymd / 32 / 13, ymd / 32 % 13, ymd % 32, hms / 4096, hms / 64 % 64, hms % 64, usec)
  }

  function DecodeDatetime2(data: bytes, dec: nat): (r: Read<Value>) {
    if |data| < 5 + FractionBytes(dec) then Fault
    else
      var intPart, usec := FromBE(data[..5]) - 0x80_0000_0000, Fraction(data, 5, dec);
      Ok(if intPart == 0 then Moment(0, 0, 0, 0, 0, 0, usec) else DatetimeFields(intPart, usec), 5 + (dec + 1) / 2)
  }

  function DecodeTime2(data: bytes, dec: nat): (r: Read<Value>) {
    match Time2Column.Decode(data, dec)
    case Some((t, n)) => Ok(Clock(t), n)
    case None => Fault
  }

  /** The pre-5.6.4 forms, numbers whose decimal digits are the fields. */
  function DecodeOldTime(data: bytes): (r: Read<Value>) {
    if |data| < 3 then Fault else Ok(OldTimeOf(FromLE(data[..3])), 3)
  }

  function OldTimeOf(i: nat): (v: Value) {
    Clock(Time2Column.Time(false, i / 1_0000, i % 1_0000 / 100, i % 100, 0))
  }

  function DecodeOldDatetime(data: bytes): (r: Read<Value>) {
    if |data| < 8 then Fault else Ok(OldMomentOf(FromLE(data[..8])), 8)
  }

  function OldMomentOf(i: nat): (v: Value) {
    var d, t := i / 100_0000, i % 100_0000;
    Moment(d / 1_0000, d % 1_0000 / 100, d % 100, t / 1_0000, t % 1_0000 / 100, t % 100, 0)
  }

  function DecodeDate(data: bytes): (r: Read<Value>) {
    if |data| < 3 then Fault else Ok(DateOf(FromLE(data[..3])), 3)
  }

  function DateOf(i: nat): (v: Value) { Day(i / 512, i / 32 % 16, i % 32) }

  function DecodeYear(data: bytes): (r: Read<Value>) {
    if |data| < 1 then Fault
    else
      var year: int := data[0];
      Ok(Int(if year == 0 then 0 else year + 1900), 1)
  }

  function DecodeFixed(data: bytes, n: nat): (r: Read<nat>) {
    if |data| < n then Fault else Ok(FromLE(data[..n]), n)
  }

  /** The type switch, on the type and length that StringLayout has settled. */
  function DecodeAs(data: bytes, tp: byte, length: nat, c: Column, ignore: bool): (r: Read<Value>) {
    if tp == NULL then Ok(Nil, 0)
    else if IntWidth(tp) > 0 then DecodeInt(data, IntWidth(tp), c.unsigned)
    else if tp == NEWDECIMAL then DecodeDecimal(data, c.meta)
    else if tp == FLOAT then (match DecodeFixed(data, 4) case Ok(u, n) => Ok(Float(u), n) case _ => Fault)
    else if tp == DOUBLE then (match DecodeFixed(data, 8) case Ok(u, n) => Ok(Double(u), n) case _ => Fault)
    else if tp == BIT then DecodeBits(data, (c.meta / 256 * 8 + c.meta % 256 + 7) / 8, true)
    else if tp == TIMESTAMP then (match DecodeFixed(data, 4) case Ok(u, n) => Ok(Stamp(u, 0), n) case _ => Fault)
    else if tp == TIMESTAMP2 then DecodeTimestamp2(data, c.meta)
    else if tp == DATETIME then DecodeOldDatetime(data)
    else if tp == DATETIME2 then DecodeDatetime2(data, c.meta)
    else if tp == TIME then DecodeOldTime(data)
    else if tp == TIME2 then DecodeTime2(data, c.meta)
    else if tp == DATE then DecodeDate(data)
    else if tp == YEAR then DecodeYear(data)
    else if tp == ENUM then DecodeEnum(data, c.meta % 256)
    else if tp == SET then DecodeBits(data, c.meta % 256, false)
    else if tp == BLOB || tp == GEOMETRY || tp == VECTOR then DecodeBlob(data, c.meta)
    else if tp == VARCHAR || tp == VAR_STRING then DecodeString(data, c.meta)
    else if tp == STRING then DecodeString(data, length)
    else if tp == JSON then DecodeJson(data, c.meta, ignore)
    else Fault
  }

  function Layout(c: Column): (r: (byte, nat))
    requires c.meta < 0x1_0000
  {
    if c.tp == STRING then StringLayout(c.meta) else (c.tp, 0)
  }

  /** decodeValue */
  function Decode(data: bytes, c: Column, ignore: bool): (r: Read<Value>)
    requires c.meta < 0x1_0000
  {
    DecodeAs(data, Layout(c).0, Layout(c).1, c, ignore)
  }

  // ----- the binlog format -----

  /** What a server writes: decimals as digits, documents with a layout, all else as it is shown. */
  datatype Stored = Plain(v: Value) | Digits(d: PackedDecimal.Value) | Document(doc: Jsonb.Doc)

  function Shown(s: Stored): (v: Value) {
    match s
    case Plain(v) => v
    case Digits(d) => Decimal(PackedDecimal.Render(d))
    case Document(doc) => Json(Jsonb.Erase(doc))
  }

  predicate FitsFraction(usec: nat, dec: nat) {
    usec % FractionUnit(dec) == 0 && usec / FractionUnit(dec) < Pow256(FractionBytes(dec))
  }

  function EncodeFraction(usec: nat, dec: nat): (b: bytes)
    ensures |b| == FractionBytes(dec)
  {
    BE(FractionBytes(dec), usec / FractionUnit(dec))
  }

  function PackMoment(v: Value): (n: nat)
    requires v.Moment?
  {
    ((v.year * 13 + v.month) * 32 + v.day) * 0x2_0000 + v.hour * 4096 + v.minute * 64 + v.second
  }

  predicate FitsMoment(v: Value) {
    v.Moment? && v.month < 13 && v.day < 32 && v.hour < 32 && v.minute < 64 && v.second < 64
    && v.year * 13 + v.month < 0x2_0000
  }

  predicate FitsOldMoment(v: Value) {
    v.Moment? && v.month < 100 && v.day < 100 && v.hour < 100 && v.minute < 100 && v.second < 100 && v.usec == 0
    && v.year < 1_8446_7440
  }

  function PackOldMoment(v: Value): (n: nat)
    requires v.Moment?
  {
    (v.year * 1_0000 + v.month * 100 + v.day) * 100_0000 + v.hour * 1_0000 + v.minute * 100 + v.second
  }

  function BlobForm(k: nat, b: bytes): (e: bytes) { LE(k, |b|) + b }

  function StringForm(length: nat, s: bytes): (e: bytes) { BlobForm(if length < 256 then 1 else 2, s) }

  predicate FitsBlob(k: nat, b: bytes) { |b| < Pow256(k) }

  /** The values a column of type `tp` holds, given its length and metadata. */
  predicate FitsAs(s: Stored, tp: byte, length: nat, c: Column) {
    if s.Digits? then
      tp == NEWDECIMAL && c.meta % 256 <= c.meta / 256 % 256
      && s.d.Fits(PackedDecimal.LayoutOf(c.meta / 256 % 256, c.meta % 256))
    else if s.Document? then
      tp == JSON && 1 <= c.meta <= 4 && JsonbEncoder.DocFits(s.doc)
      && |JsonbEncoder.EncodeDocument(s.doc)| < Pow256(c.meta)
    else
      match s.v
      case Int(i) =>
        if IntWidth(tp) > 0 then (if c.unsigned then 0 <= i < Pow256(IntWidth(tp)) else FitsSigned(IntWidth(tp), i))
        else if tp == BIT then FitsBits(i, (c.meta / 256 * 8 + c.meta % 256 + 7) / 8)
        else if tp == SET then FitsBits(i, c.meta % 256)
        else if tp == ENUM then 1 <= c.meta % 256 <= 2 && 0 <= i < Pow256(c.meta % 256)
        else tp == YEAR && (i == 0 || 1901 <= i <= 2155)
      case Float(u) => tp == FLOAT && u < Pow256(4)
      case Double(u) => tp == DOUBLE && u < Pow256(8)
      case Stamp(sec, usec) =>
        sec < Pow256(4) &&
        (if tp == TIMESTAMP then usec == 0 else tp == TIMESTAMP2 && c.meta <= 6 && FitsFraction(usec, c.meta))
      case Moment(_, _, _, _, _, _, usec) =>
        if tp == DATETIME then FitsOldMoment(s.v)
        else tp == DATETIME2 && c.meta <= 6 && FitsMoment(s.v) && FitsFraction(usec, c.meta)
      case Day(y, m, d) => tp == DATE && m < 16 && d < 32 && y < 0x8000
      case Clock(t) =>
        if tp == TIME then !t.negative && 0 <= t.hour < 1000 && 0 <= t.minute < 100 && 0 <= t.second < 100
          && t.micros == 0
        else tp == TIME2 && Time2Column.Representable(t, c.meta)
      case Str(b) =>
        if tp == VARCHAR || tp == VAR_STRING then FitsBlob(if c.meta < 256 then 1 else 2, b)
        else tp == STRING && FitsBlob(if length < 256 then 1 else 2, b)
      case Blob(b) => (tp == BLOB || tp == GEOMETRY || tp == VECTOR) && 1 <= c.meta <= 4 && FitsBlob(c.meta, b)
      case EmptyJson => tp == JSON && 1 <= c.meta <= 4
      case _ => false
  }

  predicate FitsBits(i: int, n: nat) {
    1 <= n <= 8 && if n == 8 then FitsSigned(8, i) else 0 <= i < Pow256(n)
  }

  predicate Fits(s: Stored, c: Column) {
    c.meta < 0x1_0000 && FitsAs(s, Layout(c).0, Layout(c).1, c)
  }

  function BitsForm(i: int, n: nat): (u: nat)
    requires FitsBits(i, n)
  {
    if n == 8 then ToUnsigned(8, i) else i
  }

  function EncodeIntAs(i: int, tp: byte, c: Column): (b: bytes)
    requires FitsAs(Plain(Int(i)), tp, 0, c)
  {
    if IntWidth(tp) > 0 then LE(IntWidth(tp), if c.unsigned then i else ToUnsigned(IntWidth(tp), i))
    else if tp == BIT then
      var n := (c.meta / 256 * 8 + c.meta % 256 + 7) / 8;
      BE(n, BitsForm(i, n))
    else if tp == SET then LE(c.meta % 256, BitsForm(i, c.meta % 256))
    else if tp == ENUM then LE(c.meta % 256, i)
    else [if i == 0 then 0 else i - 1900]
  }

  function EncodeAs(s: Stored, tp: byte, length: nat, c: Column): (b: bytes)
    requires FitsAs(s, tp, length, c)
  {
    if s.Digits? then PackedDecimal.Encode(s.d, PackedDecimal.LayoutOf(c.meta / 256 % 256, c.meta % 256))
    else if s.Document? then BlobForm(c.meta, JsonbEncoder.EncodeDocument(s.doc))
    else
      match s.v
      case Int(i) => EncodeIntAs(i, tp, c)
      case Float(u) => LE(4, u)
      case Double(u) => LE(8, u)
      case Stamp(sec, usec) => if tp == TIMESTAMP then LE(4, sec) else BE(4, sec) + EncodeFraction(usec, c.meta)
      case Moment(_, _, _, _, _, _, usec) =>
        if tp == DATETIME then LE(8, PackOldMoment(s.v))
        else BE(5, PackMoment(s.v) + 0x80_0000_0000) + EncodeFraction(usec, c.meta)
      case Day(y, m, d) => LE(3, y * 512 + m * 32 + d)
      case Clock(t) => if tp == TIME then LE(3, t.hour * 1_0000 + t.minute * 100 + t.second)
        else Time2Column.Encode(t, c.meta)
      case Str(b) => StringForm(if tp == STRING then length else c.meta, b)
      case Blob(b) => BlobForm(c.meta, b)
      case EmptyJson => LE(c.meta, 0)
  }

  function Encode(s: Stored, c: Column): (b: bytes)
    requires Fits(s, c)
  {
    EncodeAs(s, Layout(c).0, Layout(c).1, c)
  }

  // ----- decoding inverts the format -----

  lemma TakeFront(a: bytes, rest: bytes)
    ensures (a + rest)[..|a|] == a
  {
  }

  lemma IntRoundTrip(n: nat, i: int, unsigned: bool, rest: bytes)
    requires n > 0 && if unsigned then 0 <= i < Pow256(n) else FitsSigned(n, i)
    ensures DecodeInt(LE(n, if unsigned then i else ToUnsigned(n, i)) + rest, n, unsigned) == Ok(Int(i), n)
  {
    if !unsigned { SignedRoundTrip(n, i); }
    var u: nat := if unsigned then i else ToUnsigned(n, i);
    LittleEndianRoundTrip(n, u);
    TakeFront(LE(n, u), rest);
  }

  lemma BitsRoundTrip(n: nat, i: int, bigEndian: bool, rest: bytes)
    requires FitsBits(i, n)
    ensures DecodeBits((if bigEndian then BE(n, BitsForm(i, n)) else LE(n, BitsForm(i, n))) + rest, n, bigEndian)
      == Ok(Int(i), n)
  {
    var u := BitsForm(i, n);
    BitsFormFits(n, i);
    if bigEndian {
      BigEndianRoundTrip(n, u);
      TakeFront(BE(n, u), rest);
    } else {
      LittleEndianRoundTrip(n, u);
      TakeFront(LE(n, u), rest);
    }
  }

  lemma BitsFormFits(n: nat, i: int)
    requires FitsBits(i, n)
    ensures BitsForm(i, n) < Pow256(n) && ToSigned(8, BitsForm(i, n)) == i
  {
    if n == 8 {
      SignedRoundTrip(8, i);
    } else {
      SmallPowers(n);
    }
  }

  lemma SmallPowers(n: nat)
    requires n <= 7
    ensures 2 * Pow256(n) < Pow256(8)
  {
    assert Pow256(8) == 256 * Pow256(7);
    PowerMonotone(n, 7);
  }

  lemma {:induction false} PowerMonotone(m: nat, n: nat)
    requires m <= n
    ensures Pow256(m) <= Pow256(n)
  {
    if m < n { PowerMonotone(m, n - 1); }
  }

  lemma FixedRoundTrip(n: nat, u: nat, rest: bytes)
    requires u < Pow256(n)
    ensures DecodeFixed(LE(n, u) + rest, n) == Ok(u, n)
  {
    LittleEndianRoundTrip(n, u);
    TakeFront(LE(n, u), rest);
  }

  lemma PrefixedRoundTrip(k: nat, b: bytes, rest: bytes)
    requires FitsBlob(k, b)
    ensures LengthPrefixed(BlobForm(k, b) + rest, k) == Ok(b, k + |b|)
  {
    LittleEndianRoundTrip(k, |b|);
    Middle(LE(k, |b|), b, rest);
  }

  lemma FractionRoundTrip(head: bytes, usec: nat, dec: nat, rest: bytes)
    requires FitsFraction(usec, dec)
    ensures Fraction(head + EncodeFraction(usec, dec) + rest, |head|, dec) == usec
  {
    Middle(head, EncodeFraction(usec, dec), rest);
    BigEndianRoundTrip(FractionBytes(dec), usec / FractionUnit(dec));
    WholeUnits(usec, dec);
  }

  lemma WholeUnits(usec: nat, dec: nat)
    requires usec % FractionUnit(dec) == 0
    ensures usec / FractionUnit(dec) * FractionUnit(dec) == usec
  {
    if dec == 1 || dec == 2 {
      assert usec / 1_0000 * 1_0000 == usec;
    } else if dec == 3 || dec == 4 {
      assert usec / 100 * 100 == usec;
    }
  }

  lemma StampRoundTrip(sec: nat, usec: nat, dec: nat, rest: bytes)
    requires sec < Pow256(4) && dec <= 6 && FitsFraction(usec, dec)
    ensures DecodeTimestamp2(BE(4, sec) + EncodeFraction(usec, dec) + rest, dec)
      == Ok(Stamp(sec, usec), 4 + FractionBytes(dec))
  {
    var f := EncodeFraction(usec, dec);
    FractionRoundTrip(BE(4, sec), usec, dec, rest);
    ConcatAssoc(BE(4, sec), f, rest);
    TakeFront(BE(4, sec), f + rest);
    BigEndianRoundTrip(4, sec);
  }

  lemma MomentFields(v: Value)
    requires FitsMoment(v) && v.usec < 0x100_0000
    ensures DatetimeFields(PackMoment(v), v.usec) == v && PackMoment(v) < 0x80_0000_0000
  {
    var n, ym := PackMoment(v), v.year * 13 + v.month;
    assert (n * 0x100_0000 + v.usec) / 0x100_0000 == n;
    assert n / 0x2_0000 == ym * 32 + v.day && n % 0x2_0000 == v.hour * 4096 + v.minute * 64 + v.second;
    assert (ym * 32 + v.day) / 32 == ym && (ym * 32 + v.day) % 32 == v.day && ym / 13 == v.year && ym % 13 == v.month;
    HmsFields(v.hour, v.minute, v.second);
  }

  lemma HmsFields(h: nat, m: nat, s: nat)
    requires h < 32 && m < 64 && s < 64
    ensures var hms := h * 4096 + m * 64 + s; hms / 4096 == h && hms / 64 % 64 == m && hms % 64 == s
  {
  }

  lemma FractionBound(usec: nat, dec: nat)
    requires dec <= 6 && FitsFraction(usec, dec)
    ensures usec < 0x100_0000
  {
    assert Pow256(1) == 0x100 && Pow256(2) == 0x1_0000 && Pow256(3) == 0x100_0000 && Pow256(0) == 1;
  }

  lemma MomentRoundTrip(v: Value, dec: nat, rest: bytes)
    requires FitsMoment(v) && dec <= 6 && FitsFraction(v.usec, dec)
    ensures DecodeDatetime2(BE(5, PackMoment(v) + 0x80_0000_0000) + EncodeFraction(v.usec, dec) + rest, dec)
         == Ok(v, 5 + FractionBytes(dec))
  {
    var f, n := EncodeFraction(v.usec, dec), PackMoment(v) + 0x80_0000_0000;
    FractionBound(v.usec, dec);
    MomentFields(v);
    assert Pow256(5) == 0x100_0000_0000;
    FractionRoundTrip(BE(5, n), v.usec, dec, rest);
    ConcatAssoc(BE(5, n), f, rest);
    TakeFront(BE(5, n), f + rest);
    BigEndianRoundTrip(5, n);
    DatetimeParts(BE(5, n) + f + rest, dec, PackMoment(v), v.usec);
    if PackMoment(v) == 0 { assert v == Moment(0, 0, 0, 0, 0, 0, v.usec); }
  }

  lemma DatetimeParts(data: bytes, dec: nat, intPart: int, usec: nat)
    requires dec <= 6 && |data| >= 5 + FractionBytes(dec)
    requires FromBE(data[..5]) == intPart + 0x80_0000_0000 && Fraction(data, 5, dec) == usec
    ensures DecodeDatetime2(data, dec)
         == Ok(if intPart == 0 then Moment(0, 0, 0, 0, 0, 0, usec)
           else DatetimeFields(intPart, usec), 5 + FractionBytes(dec))
  {
  }

  /** A negative number stands for its distance from zero, less one when there is a fraction. */
  lemma NegativeMoment(n: int, usec: nat)
    requires n > 0 && usec < 0x100_0000
    ensures DatetimeFields(-n, usec) == MomentOf(if usec > 0 then n - 1 else n, usec)
    ensures DatetimeFields(n, usec) == MomentOf(n, usec)
  {
    WholePart(n, usec);
  }

  lemma WholePart(n: int, usec: nat)
    requires n > 0 && usec < 0x100_0000
    ensures (n * 0x100_0000 - usec) / 0x100_0000 == (if usec > 0 then n - 1 else n)
    ensures (n * 0x100_0000 + usec) / 0x100_0000 == n
  {
  }

  lemma OldMomentRoundTrip(v: Value, rest: bytes)
    requires FitsOldMoment(v)
    ensures DecodeOldDatetime(LE(8, PackOldMoment(v)) + rest) == Ok(v, 8)
  {
    OldMomentFields(v);
    FixedRoundTrip(8, PackOldMoment(v), rest);
  }

  lemma OldMomentFields(v: Value)
    requires FitsOldMoment(v)
    ensures OldMomentOf(PackOldMoment(v)) == v && PackOldMoment(v) < Pow256(8)
  {
    var i, d := PackOldMoment(v), v.year * 1_0000 + v.month * 100 + v.day;
    var t := v.hour * 1_0000 + v.minute * 100 + v.second;
    assert i / 100_0000 == d && i % 100_0000 == t;
    ThreeFields(v.year, v.month, v.day);
    ThreeFields(v.hour, v.minute, v.second);
    assert Pow256(8) == 0x1_0000_0000_0000_0000;
  }

  /** Pairs of decimal digits below an open-ended field. */
  lemma ThreeFields(a: nat, b: nat, c: nat)
    requires b < 100 && c < 100
    ensures var i := a * 1_0000 + b * 100 + c; i / 1_0000 == a && i % 1_0000 / 100 == b && i % 100 == c
  {
    var i := a * 1_0000 + b * 100 + c;
    assert i % 1_0000 == b * 100 + c && i % 100 == c;
  }

  lemma DateFields(y: nat, m: nat, d: nat)
    requires m < 16 && d < 32
    ensures DateOf(y * 512 + m * 32 + d) == Day(y, m, d)
  {
    var i := y * 512 + m * 32 + d;
    assert i / 32 == y * 16 + m && i % 32 == d;
    assert (y * 16 + m) % 16 == m && i / 512 == y;
  }

  lemma DateRoundTrip(y: nat, m: nat, d: nat, rest: bytes)
    requires m < 16 && d < 32 && y < 0x8000
    ensures DecodeDate(LE(3, y * 512 + m * 32 + d) + rest) == Ok(Day(y, m, d), 3)
  {
    assert Pow256(3) == 0x100_0000;
    DateFields(y, m, d);
    FixedRoundTrip(3, y * 512 + m * 32 + d, rest);
  }

  lemma OldTimeRoundTrip(t: Time2Column.Time, rest: bytes)
    requires !t.negative && 0 <= t.hour < 1000 && 0 <= t.minute < 100 && 0 <= t.second < 100 && t.micros == 0
    ensures DecodeOldTime(LE(3, t.hour * 1_0000 + t.minute * 100 + t.second) + rest) == Ok(Clock(t), 3)
  {
    assert Pow256(3) == 0x100_0000;
    ThreeFields(t.hour, t.minute, t.second);
    FixedRoundTrip(3, t.hour * 1_0000 + t.minute * 100 + t.second, rest);
  }

  lemma JsonRoundTrip(doc: Jsonb.Doc, k: nat, rest: bytes, ignore: bool)
    requires 1 <= k <= 4 && JsonbEncoder.DocFits(doc) && |JsonbEncoder.EncodeDocument(doc)| < Pow256(k)
    ensures var e := BlobForm(k, JsonbEncoder.EncodeDocument(doc));
      DecodeJson(e + rest, k, ignore) == Ok(Json(Jsonb.Erase(doc)), |e|)
  {
    var b := JsonbEncoder.EncodeDocument(doc);
    JsonbEncoder.DecodeEncodeDocument(doc, [], ignore);
    ConcatEmpty(b);
    LittleEndianRoundTrip(k, |b|);
    Middle(LE(k, |b|), b, rest);
    ConcatAssoc(LE(k, |b|), b, rest);
    TakeFront(LE(k, |b|), b + rest);
  }

  lemma EmptyJsonRoundTrip(k: nat, rest: bytes, ignore: bool)
    requires 1 <= k <= 4
    ensures DecodeJson(LE(k, 0) + rest, k, ignore) == Ok(EmptyJson, k)
  {
    LittleEndianRoundTrip(k, 0);
    TakeFront(LE(k, 0), rest);
  }

  lemma DecimalRoundTrip(d: PackedDecimal.Value, meta: nat, rest: bytes)
    requires meta % 256 <= meta / 256 % 256 && d.Fits(PackedDecimal.LayoutOf(meta / 256 % 256, meta % 256))
    ensures var e := PackedDecimal.Encode(d, PackedDecimal.LayoutOf(meta / 256 % 256, meta % 256));
      DecodeDecimal(e + rest, meta) == Ok(Decimal(PackedDecimal.Render(d)), |e|)
  {
    PackedDecimal.DecodeEncode(d, meta / 256 % 256, meta % 256, rest);
  }

  lemma IntAsRoundTrip(i: int, tp: byte, length: nat, c: Column, rest: bytes, ignore: bool)
    requires FitsAs(Plain(Int(i)), tp, length, c)
    ensures DecodeAs(EncodeIntAs(i, tp, c) + rest, tp, length, c, ignore) == Ok(Int(i), |EncodeIntAs(i, tp, c)|)
  {
    if IntWidth(tp) > 0 {
      IntRoundTrip(IntWidth(tp), i, c.unsigned, rest);
    } else if tp == BIT {
      BitAsRoundTrip((c.meta / 256 * 8 + c.meta % 256 + 7) / 8, i, length, c, rest, ignore);
    } else if tp == SET {
      BitsRoundTrip(c.meta % 256, i, false, rest);
    } else if tp == ENUM {
      EnumRoundTrip(c.meta % 256, i, rest);
    }
  }

  lemma BitAsRoundTrip(n: nat, i: int, length: nat, c: Column, rest: bytes, ignore: bool)
    requires FitsBits(i, n) && n == (c.meta / 256 * 8 + c.meta % 256 + 7) / 8
    ensures DecodeAs(BE(n, BitsForm(i, n)) + rest, BIT, length, c, ignore) == Ok(Int(i), n)
  {
    BitsRoundTrip(n, i, true, rest);
  }

  lemma EnumRoundTrip(n: nat, i: nat, rest: bytes)
    requires 1 <= n <= 2 && i < Pow256(n)
    ensures DecodeEnum(LE(n, i) + rest, n) == Ok(Int(i), n)
  {
    LittleEndianRoundTrip(n, i);
    TakeFront(LE(n, i), rest);
  }

  lemma StampAsRoundTrip(sec: nat, usec: nat, tp: byte, length: nat, c: Column, rest: bytes, ignore: bool)
    requires FitsAs(Plain(Stamp(sec, usec)), tp, length, c)
    ensures var e := EncodeAs(Plain(Stamp(sec, usec)), tp, length, c);
      DecodeAs(e + rest, tp, length, c, ignore) == Ok(Stamp(sec, usec), |e|)
  {
    if tp == TIMESTAMP {
      FixedRoundTrip(4, sec, rest);
    } else {
      StampRoundTrip(sec, usec, c.meta, rest);
    }
  }

  lemma NewMomentForm(v: Value, length: nat, c: Column, e: bytes)
    requires v.Moment? && FitsAs(Plain(v), DATETIME2, length, c)
    requires e == BE(5, PackMoment(v) + 0x80_0000_0000) + EncodeFraction(v.usec, c.meta)
    ensures EncodeAs(Plain(v), DATETIME2, length, c) == e
  {
  }

  lemma AsDatetime(data: bytes, length: nat, c: Column, ignore: bool)
    ensures DecodeAs(data, DATETIME, length, c, ignore) == DecodeOldDatetime(data)
    ensures DecodeAs(data, DATETIME2, length, c, ignore) == DecodeDatetime2(data, c.meta)
  {
  }

  lemma ClockAsRoundTrip(t: Time2Column.Time, tp: byte, length: nat, c: Column, rest: bytes, ignore: bool)
    requires FitsAs(Plain(Clock(t)), tp, length, c)
    ensures var e := EncodeAs(Plain(Clock(t)), tp, length, c);
      DecodeAs(e + rest, tp, length, c, ignore) == Ok(Clock(t), |e|)
  {
    if tp == TIME {
      OldTimeRoundTrip(t, rest);
    } else {
      Time2Column.DecodeEncode(t, c.meta, rest);
    }
  }

  lemma OthersRoundTrip(v: Value, tp: byte, length: nat, c: Column, rest: bytes, ignore: bool)
    requires !v.Int? && !v.Stamp? && !v.Moment? && !v.Clock? && FitsAs(Plain(v), tp, length, c)
    ensures var e := EncodeAs(Plain(v), tp, length, c); DecodeAs(e + rest, tp, length, c, ignore) == Ok(v, |e|)
  {
    match v {
      case Float(u) => FixedRoundTrip(4, u, rest);
      case Double(u) => FixedRoundTrip(8, u, rest);
      case Day(y, m, d) => DateRoundTrip(y, m, d, rest);
      case Str(b) => PrefixedRoundTrip(if (if tp == STRING then length else c.meta) < 256 then 1 else 2, b, rest);
      case Blob(b) => PrefixedRoundTrip(c.meta, b, rest);
      case EmptyJson => EmptyJsonRoundTrip(c.meta, rest, ignore);
    }
  }

  lemma RoundTripAs(s: Stored, tp: byte, length: nat, c: Column, rest: bytes, ignore: bool)
    requires FitsAs(s, tp, length, c)
    ensures var e := EncodeAs(s, tp, length, c); DecodeAs(e + rest, tp, length, c, ignore) == Ok(Shown(s), |e|)
  {
    match s {
      case Digits(d) => DigitsRoundTrip(d, length, c, EncodeAs(s, tp, length, c), rest, ignore);
      case Document(doc) => DocumentRoundTrip(doc, length, c, EncodeAs(s, tp, length, c), rest, ignore);
      case Plain(v) => PlainRoundTrip(v, tp, length, c, rest, ignore);
    }
  }

  lemma DigitsRoundTrip(d: PackedDecimal.Value, length: nat, c: Column, e: bytes, rest: bytes, ignore: bool)
    requires FitsAs(Digits(d), NEWDECIMAL, length, c) && e == EncodeAs(Digits(d), NEWDECIMAL, length, c)
    ensures DecodeAs(e + rest, NEWDECIMAL, length, c, ignore) == Ok(Decimal(PackedDecimal.Render(d)), |e|)
  {
    DecimalRoundTrip(d, c.meta, rest);
    AsDecimal(e + rest, length, c, ignore);
  }

  lemma DocumentRoundTrip(doc: Jsonb.Doc, length: nat, c: Column, e: bytes, rest: bytes, ignore: bool)
    requires FitsAs(Document(doc), JSON, length, c) && e == EncodeAs(Document(doc), JSON, length, c)
    ensures DecodeAs(e + rest, JSON, length, c, ignore) == Ok(Json(Jsonb.Erase(doc)), |e|)
  {
    JsonRoundTrip(doc, c.meta, rest, ignore);
    AsJson(e + rest, length, c, ignore);
  }

  lemma AsDecimal(data: bytes, length: nat, c: Column, ignore: bool)
    ensures DecodeAs(data, NEWDECIMAL, length, c, ignore) == DecodeDecimal(data, c.meta)
  {
  }

  lemma AsJson(data: bytes, length: nat, c: Column, ignore: bool)
    ensures DecodeAs(data, JSON, length, c, ignore) == DecodeJson(data, c.meta, ignore)
  {
  }

  lemma PlainRoundTrip(v: Value, tp: byte, length: nat, c: Column, rest: bytes, ignore: bool)
    requires FitsAs(Plain(v), tp, length, c)
    ensures var e := EncodeAs(Plain(v), tp, length, c); DecodeAs(e + rest, tp, length, c, ignore) == Ok(v, |e|)
  {
    if v.Int? {
      IntAsRoundTrip(v.i, tp, length, c, rest, ignore);
    } else if v.Stamp? {
      StampAsRoundTrip(v.sec, v.usec, tp, length, c, rest, ignore);
    } else if v.Moment? && tp == DATETIME {
      OldMomentRoundTrip(v, rest);
      AsDatetime(LE(8, PackOldMoment(v)) + rest, length, c, ignore);
    } else if v.Moment? {
      var e := BE(5, PackMoment(v) + 0x80_0000_0000) + EncodeFraction(v.usec, c.meta);
      MomentRoundTrip(v, c.meta, rest);
      NewMomentForm(v, length, c, e);
      AsDatetime(e + rest, length, c, ignore);
    } else if v.Clock? {
      ClockAsRoundTrip(v.time, tp, length, c, rest, ignore);
    } else {
      OthersRoundTrip(v, tp, length, c, rest, ignore);
    }
  }

  /** Every value a column can hold is read back from its binlog form, and exactly that form is consumed. */
  lemma DecodeEncode(s: Stored, c: Column, rest: bytes, ignore: bool)
    requires Fits(s, c)
    ensures Decode(Encode(s, c) + rest, c, ignore) == Ok(Shown(s), |Encode(s, c)|)
  {
    RoundTripAs(s, Layout(c).0, Layout(c).1, c, rest, ignore);
  }

  // ----- only the bytes consumed matter -----

  ghost predicate Same(a: bytes, b: bytes, n: nat) { n <= |a| && n <= |b| && a[..n] == b[..n] }

  lemma SameSlice(a: bytes, b: bytes, n: nat, i: nat, j: nat)
    requires Same(a, b, n) && i <= j <= n
    ensures a[i..j] == b[i..j] && a[..j] == b[..j]
  {
    assert a[i..j] == a[..n][i..j] && b[i..j] == b[..n][i..j] && a[..j] == a[..n][..j] && b[..j] == b[..n][..j];
  }

  lemma PrefixedLocal(a: bytes, b: bytes, k: nat)
    requires var r := LengthPrefixed(a, k); r.Ok? && Same(a, b, r.n)
    ensures LengthPrefixed(b, k) == LengthPrefixed(a, k)
  {
    var n := LengthPrefixed(a, k).n;
    SameSlice(a, b, n, k, n);
    SameSlice(a, b, n, 0, k);
  }

  lemma JsonLocal(a: bytes, b: bytes, meta: nat, ignore: bool)
    requires var r := DecodeJson(a, meta, ignore); r.Ok? && Same(a, b, r.n)
    ensures DecodeJson(b, meta, ignore) == DecodeJson(a, meta, ignore)
  {
    var n := DecodeJson(a, meta, ignore).n;
    SameSlice(a, b, n, 0, if meta <= 8 then meta else 8);
    SameSlice(a, b, n, meta, n);
  }

  lemma DecimalLocal(a: bytes, b: bytes, meta: nat)
    requires var r := DecodeDecimal(a, meta); r.Ok? && Same(a, b, r.n)
    ensures DecodeDecimal(b, meta) == DecodeDecimal(a, meta)
  {
    var n := DecodeDecimal(a, meta).n;
    SameSlice(a, b, n, 0, n);
    assert a[..n][0] == b[..n][0];
  }

  lemma FractionLocal(a: bytes, b: bytes, at: nat, dec: nat, n: nat)
    requires Same(a, b, n) && at + FractionBytes(dec) <= n
    ensures Fraction(a, at, dec) == Fraction(b, at, dec)
  {
    SameSlice(a, b, n, at, at + FractionBytes(dec));
  }

  lemma Timestamp2Local(a: bytes, b: bytes, dec: nat)
    requires var r := DecodeTimestamp2(a, dec); r.Ok? && Same(a, b, r.n)
    ensures DecodeTimestamp2(b, dec) == DecodeTimestamp2(a, dec)
  {
    var n := DecodeTimestamp2(a, dec).n;
    SameSlice(a, b, n, 0, 4);
    FractionLocal(a, b, 4, dec, n);
  }

  lemma Datetime2Local(a: bytes, b: bytes, dec: nat)
    requires var r := DecodeDatetime2(a, dec); r.Ok? && Same(a, b, r.n)
    ensures DecodeDatetime2(b, dec) == DecodeDatetime2(a, dec)
  {
    var n := DecodeDatetime2(a, dec).n;
    SameSlice(a, b, n, 0, 5);
    FractionLocal(a, b, 5, dec, n);
  }

  lemma Time2Local(a: bytes, b: bytes, dec: nat)
    requires var r := DecodeTime2(a, dec); r.Ok? && Same(a, b, r.n)
    ensures DecodeTime2(b, dec) == DecodeTime2(a, dec)
  {
    var n := DecodeTime2(a, dec).n;
    SameSlice(a, b, n, 0, 3);
    if 1 <= dec <= 2 {
      SameSlice(a, b, n, 3, 4);
      assert a[3..4][0] == a[3] && b[3..4][0] == b[3];
    } else if 3 <= dec <= 4 {
      SameSlice(a, b, n, 3, 5);
    } else if 5 <= dec <= 6 {
      SameSlice(a, b, n, 0, 6);
    }
  }

  /** Whatever the column type, bytes after the consumed ones play no part. */
  lemma LocalAs(a: bytes, b: bytes, tp: byte, length: nat, c: Column, ignore: bool)
    requires var r := DecodeAs(a, tp, length, c, ignore); r.Ok? && Same(a, b, r.n)
    ensures DecodeAs(b, tp, length, c, ignore) == DecodeAs(a, tp, length, c, ignore)
  {
    if IsFixed(tp) {
      FixedLocal(a, b, tp, length, c, ignore);
    } else if tp == NEWDECIMAL {
      DecimalLocal(a, b, c.meta);
    } else if tp == TIMESTAMP2 {
      Timestamp2Local(a, b, c.meta);
    } else if tp == DATETIME2 {
      Datetime2Local(a, b, c.meta);
    } else if tp == TIME2 {
      Time2Local(a, b, c.meta);
    } else if tp == BLOB || tp == GEOMETRY || tp == VECTOR {
      PrefixedLocal(a, b, c.meta);
    } else if tp == VARCHAR || tp == VAR_STRING {
      PrefixedLocal(a, b, if c.meta < 256 then 1 else 2);
    } else if tp == STRING {
      PrefixedLocal(a, b, if length < 256 then 1 else 2);
    } else if tp == JSON {
      JsonLocal(a, b, c.meta, ignore);
    }
  }

  /** Types whose width follows from the type and the metadata, read as one number. */
  predicate IsFixed(tp: byte) {
    tp == NULL || IntWidth(tp) > 0 || tp == FLOAT || tp == DOUBLE || tp == BIT || tp == TIMESTAMP || tp == DATETIME
    || tp == TIME || tp == DATE || tp == YEAR || tp == ENUM || tp == SET
  }

  lemma FixedLocal(a: bytes, b: bytes, tp: byte, length: nat, c: Column, ignore: bool)
    requires IsFixed(tp)
    requires var r := DecodeAs(a, tp, length, c, ignore); r.Ok? && Same(a, b, r.n)
    ensures DecodeAs(b, tp, length, c, ignore) == DecodeAs(a, tp, length, c, ignore)
  {
    if tp == YEAR { assert a[..1][0] == a[0] && b[..1][0] == b[0]; }
  }

  lemma DecodeLocal(a: bytes, b: bytes, c: Column, ignore: bool)
    requires c.meta < 0x1_0000
    requires var r := Decode(a, c, ignore); r.Ok? && Same(a, b, r.n)
    ensures Decode(b, c, ignore) == Decode(a, c, ignore)
  {
    LocalAs(a, b, Layout(c).0, Layout(c).1, c, ignore);
  }
}
