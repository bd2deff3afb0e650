/**
 The columns of a table as they are declared in SQL, the type and metadata that
 a table map event gives for each, and the bytes that hold a value: all in the
 numbers of the binlog format. decodeValue in replication/row_event.go reads
 exactly the value from them.
 */
module SqlColumns {
  import opened Bytes
  import opened RowValue
  import Jsonb
  import JsonbEncoder
  import PackedDecimal
  import Time2Column

  /** Lengths of CHAR and VARCHAR are in bytes; BlobOf is TINYBLOB, BLOB, MEDIUMBLOB or LONGBLOB. */
  datatype SqlType =
    | Integer(width: nat, unsigned: bool)
    | Real(width: nat)
    | Numeric(precision: nat, scale: nat)
    | Bits(n: nat)
    | Char(length: nat)
    | Varchar(length: nat)
    | EnumOf(members: nat)
    | SetOf(members: nat)
    | BlobOf(lengthBytes: nat)
    | JsonText
    | Timestamp(fsp: nat)
    | Datetime(fsp: nat)
    | TimeOfDay(fsp: nat)

  predicate Declarable(t: SqlType) {
    match t
    case Integer(w, _) => w in {1, 2, 3, 4, 8}
    case Real(w) => w in {4, 8}
    case Numeric(p, s) => 1 <= p <= 65 && s <= 30 && s <= p
    case Bits(n) => 1 <= n <= 64
    case Char(n) => n < 1024
    case Varchar(n) => n < 0x1_0000
    case EnumOf(n) => 1 <= n < 0x1_0000
    case SetOf(n) => 1 <= n <= 64
    case BlobOf(k) => 1 <= k <= 4
    case JsonText => true
    case Timestamp(fsp) => fsp <= 6
    case Datetime(fsp) => fsp <= 6
    case TimeOfDay(fsp) => fsp <= 6
  }

  function EnumBytes(members: nat): (n: nat) { if members < 256 then 1 else 2 }

  function SetBytes(members: nat): (n: nat) {
    if members <= 8 then 1 else if members <= 16 then 2 else if members <= 24 then 3 else if members <= 32 then 4 else 8
  }

  /**
   Type and metadata as a server writes them. CHAR, ENUM and SET are of type 254; the first byte of
   their metadata is the type they really are, and in CHAR its bits 4 and 5 take up those of the
   length that the second byte has no room for.
   */
  function ColumnOf(t: SqlType): (c: Column)
    requires Declarable(t)
  {
    match t
    case Integer(w, u) =>
      Column(if w == 1 then 1 else if w == 2 then 2 else if w == 3 then 9 else if w == 4 then 3 else 8, 0, u)
    case Real(w) => Column(if w == 4 then 4 else 5, w, false)
    case Numeric(p, s) => Column(246, p * 256 + s, false)
    case Bits(n) => Column(16, n / 8 * 256 + n % 8, false)
    case Char(n) => Column(254, (254 - 16 * (n / 256)) * 256 + n % 256, false)
    case Varchar(n) => Column(15, n, false)
    case EnumOf(n) => Column(254, 247 * 256 + EnumBytes(n), false)
    case SetOf(n) => Column(254, 248 * 256 + SetBytes(n), false)
    case BlobOf(k) => Column(252, k, false)
    case JsonText => Column(245, 4, false)
    case Timestamp(fsp) => Column(17, fsp, false)
    case Datetime(fsp) => Column(18, fsp, false)
    case TimeOfDay(fsp) => Column(19, fsp, false)
  }

  // ----- the metadata -----

  /** Type and length are read back from the metadata that a server writes. */
  lemma LayoutRead(tp: byte, length: nat)
    requires tp in {247, 248, 254} && length < 1024
    ensures StringLayout((tp - 16 * (length / 256)) * 256 + length % 256) == (tp, length)
  {
    var b0, b1 := tp - 16 * (length / 256), length % 256;
    assert (b0 * 256 + b1) / 256 == b0 && (b0 * 256 + b1) % 256 == b1;
    assert b0 / 16 % 4 == 3 - length / 256;
  }

  /** A second holds 100 units for each byte of its fraction, and a byte holds two digits. */
  lemma FractionsAre(dec: nat)
    requires 1 <= dec <= 6
    ensures 2 * FractionBytes(dec) - 1 <= dec <= 2 * FractionBytes(dec)
    ensures FractionUnit(dec) * (if dec <= 2 then 100 else if dec <= 4 then 1_0000 else 100_0000) == 100_0000
  {
  }

  // ----- which reader a column has -----

  lemma AsInteger(data: bytes, w: nat, unsigned: bool, ignore: bool)
    requires w in {1, 2, 3, 4, 8}
    ensures Decode(data, ColumnOf(Integer(w, unsigned)), ignore) == DecodeInt(data, w, unsigned)
  {
  }

  lemma AsBits(data: bytes, n: nat, ignore: bool)
    requires Declarable(Bits(n))
    ensures Decode(data, ColumnOf(Bits(n)), ignore) == DecodeBits(data, (n + 7) / 8, true)
  {
    var meta := n / 8 * 256 + n % 8;
    assert meta / 256 == n / 8 && meta % 256 == n % 8;
  }

  /** ENUM and SET: the second byte of the metadata is the size of a value. */
  lemma AsMembers(data: bytes, tp: byte, n: nat, ignore: bool)
    requires tp in {247, 248} && 1 <= n <= 8
    ensures Decode(data, Column(254, tp * 256 + n, false), ignore)
         == if tp == 247 then DecodeEnum(data, n) else DecodeBits(data, n, false)
  {
    LayoutRead(tp, n);
    PairSplits(tp, n);
  }

  lemma AsChar(data: bytes, length: nat, ignore: bool)
    requires Declarable(Char(length))
    ensures Decode(data, ColumnOf(Char(length)), ignore) == DecodeString(data, length)
  {
    LayoutRead(254, length);
  }

  lemma AsVarchar(data: bytes, length: nat, ignore: bool)
    requires Declarable(Varchar(length))
    ensures Decode(data, ColumnOf(Varchar(length)), ignore) == DecodeString(data, length)
  {
  }

  lemma AsTimestamp(data: bytes, fsp: nat, ignore: bool)
    requires fsp <= 6
    ensures Decode(data, ColumnOf(Timestamp(fsp)), ignore) == DecodeTimestamp2(data, fsp)
  {
  }

  lemma AsTime(data: bytes, fsp: nat, ignore: bool)
    requires fsp <= 6
    ensures Decode(data, ColumnOf(TimeOfDay(fsp)), ignore) == DecodeTime2(data, fsp)
  {
  }

  /** The types without metadata that matters, those of servers before 5.6.4, and those read as a blob or a text. */
  lemma OtherTypes(data: bytes, meta: nat, unsigned: bool, ignore: bool)
    requires meta < 0x1_0000
    ensures Decode(data, Column(6, meta, unsigned), ignore) == Ok(Nil, 0)
    ensures Decode(data, Column(10, meta, unsigned), ignore) == DecodeDate(data)
    ensures Decode(data, Column(11, meta, unsigned), ignore) == DecodeOldTime(data)
    ensures Decode(data, Column(12, meta, unsigned), ignore) == DecodeOldDatetime(data)
    ensures Decode(data, Column(13, meta, unsigned), ignore) == DecodeYear(data)
    ensures Decode(data, Column(253, meta, unsigned), ignore) == DecodeString(data, meta)
  {
  }

  lemma BlobTypes(data: bytes, meta: nat, unsigned: bool, ignore: bool)
    requires meta < 0x1_0000
    ensures Decode(data, Column(242, meta, unsigned), ignore) == DecodeBlob(data, meta)
    ensures Decode(data, Column(252, meta, unsigned), ignore) == DecodeBlob(data, meta)
    ensures Decode(data, Column(255, meta, unsigned), ignore) == DecodeBlob(data, meta)
    ensures Decode(data, Column(245, meta, unsigned), ignore) == DecodeJson(data, meta, ignore)
  {
  }

  /** Metadata that no server writes: other sizes of ENUM than 1 and 2, of BLOB than 1 to 4, of SET than 1 to 8. */
  lemma BadMetadata(data: bytes, n: nat, ignore: bool)
    requires n < 256
    ensures n != 1 && n != 2 ==> Decode(data, Column(247, n, false), ignore) == Fault
    ensures n == 0 || n > 8 ==> Decode(data, Column(248, n, false), ignore) == Fault
    ensures n == 0 || n > 4 ==> Decode(data, Column(252, n, false), ignore) == Fault
  {
  }

  /** No other type is read. */
  lemma UnknownTypes(data: bytes, c: Column, ignore: bool)
    requires c.meta < 0x1_0000 && c.tp !in {1, 2, 3, 4, 5, 6, 7, 8, 9, 10, 11, 12, 13, 15, 16, 17, 18, 19}
    requires c.tp !in {242, 245, 246, 247, 248, 252, 253, 254, 255}
    ensures Decode(data, c, ignore) == Fault
  {
  }

  // ----- the values -----

  lemma IntegerRead(w: nat, unsigned: bool, i: int, rest: bytes, ignore: bool)
    requires w in {1, 2, 3, 4, 8} && if unsigned then 0 <= i < Pow256(w) else FitsSigned(w, i)
    ensures Decode(LE(w, if i >= 0 then i else i + Pow256(w)) + rest, ColumnOf(Integer(w, unsigned)), ignore)
         == Ok(Int(i), w)
  {
    IntRoundTrip(w, i, unsigned, rest);
    AsInteger(LE(w, if i >= 0 then i else i + Pow256(w)) + rest, w, unsigned, ignore);
  }

  lemma RealRead(w: nat, u: nat, rest: bytes, ignore: bool)
    requires w in {4, 8} && u < Pow256(w)
    ensures Decode(LE(w, u) + rest, ColumnOf(Real(w)), ignore) == Ok(if w == 4 then Float(u) else Double(u), w)
  {
    FixedRoundTrip(w, u, rest);
  }

  /** A decimal is read with the precision and the scale of its column. */
  lemma NumericRead(p: nat, s: nat, c: Column, d: PackedDecimal.Value, b: bytes, rest: bytes, ignore: bool)
    requires Declarable(Numeric(p, s)) && c == ColumnOf(Numeric(p, s)) && d.Fits(PackedDecimal.LayoutOf(p, s))
    requires b == PackedDecimal.Encode(d, PackedDecimal.LayoutOf(p, s))
    ensures Decode(b + rest, c, ignore) == Ok(Decimal(PackedDecimal.Render(d)), |b|)
  {
    PairSplits(p, s);
    NumericAt(c.meta, p, s, d, b, rest, ignore);
  }

  lemma PairSplits(p: nat, s: nat)
    requires p < 256 && s < 256
    ensures (p * 256 + s) / 256 % 256 == p && (p * 256 + s) % 256 == s && p * 256 + s < 0x1_0000
  {
  }

  lemma NumericAt(meta: nat, p: nat, s: nat, d: PackedDecimal.Value, b: bytes, rest: bytes, ignore: bool)
    requires meta < 0x1_0000 && meta / 256 % 256 == p && meta % 256 == s <= p
    requires d.Fits(PackedDecimal.LayoutOf(p, s)) && b == PackedDecimal.Encode(d, PackedDecimal.LayoutOf(p, s))
    ensures Decode(b + rest, Column(246, meta, false), ignore) == Ok(Decimal(PackedDecimal.Render(d)), |b|)
  {
    NumericForm(meta, p, s, d, b);
    DecodeEncode(Digits(d), Column(246, meta, false), rest, ignore);
  }

  lemma NumericForm(meta: nat, p: nat, s: nat, d: PackedDecimal.Value, b: bytes)
    requires meta < 0x1_0000 && meta / 256 % 256 == p && meta % 256 == s <= p
    requires d.Fits(PackedDecimal.LayoutOf(p, s)) && b == PackedDecimal.Encode(d, PackedDecimal.LayoutOf(p, s))
    ensures Fits(Digits(d), Column(246, meta, false)) && Encode(Digits(d), Column(246, meta, false)) == b
  {
  }

  /** BIT(n) is (n + 7) / 8 bytes, the highest first. */
  lemma BitRead(n: nat, u: nat, rest: bytes, ignore: bool)
    requires Declarable(Bits(n)) && u < Pow256((n + 7) / 8)
    ensures Decode(BE((n + 7) / 8, u) + rest, ColumnOf(Bits(n)), ignore) == Ok(Int(ToSigned(8, u)), (n + 7) / 8)
  {
    var k := (n + 7) / 8;
    BigEndianRoundTrip(k, u);
    TakeFront(BE(k, u), rest);
    AsBits(BE(k, u) + rest, n, ignore);
  }

  lemma EnumRead(members: nat, i: nat, rest: bytes, ignore: bool)
    requires Declarable(EnumOf(members)) && i <= members
    ensures var n := if members < 256 then 1 else 2;
      Decode(LE(n, i) + rest, ColumnOf(EnumOf(members)), ignore) == Ok(Int(i), n)
  {
    var n := if members < 256 then 1 else 2;
    assert Pow256(1) == 256 && Pow256(2) == 0x1_0000;
    LittleEndianRoundTrip(n, i);
    TakeFront(LE(n, i), rest);
    AsMembers(LE(n, i) + rest, 247, n, ignore);
  }

  lemma SetRead(members: nat, u: nat, rest: bytes, ignore: bool)
    requires Declarable(SetOf(members)) && u < Pow256(SetBytes(members))
    ensures var n := SetBytes(members);
      Decode(LE(n, u) + rest, ColumnOf(SetOf(members)), ignore) == Ok(Int(ToSigned(8, u)), n)
  {
    var n := SetBytes(members);
    LittleEndianRoundTrip(n, u);
    TakeFront(LE(n, u), rest);
    AsMembers(LE(n, u) + rest, 248, n, ignore);
  }

  /** A text has a length of one byte, or of two if the column may hold more than 255. */
  lemma TextRead(length: nat, s: bytes, rest: bytes)
    requires length < 0x1_0000 && |s| <= length
    ensures var k := if length <= 255 then 1 else 2; DecodeString(LE(k, |s|) + s + rest, length) == Ok(Str(s), k + |s|)
  {
    assert Pow256(1) == 256 && Pow256(2) == 0x1_0000;
    PrefixedRoundTrip(if length < 256 then 1 else 2, s, rest);
  }

  lemma CharRead(length: nat, s: bytes, data: bytes, rest: bytes, ignore: bool)
    requires Declarable(Char(length)) && |s| <= length && data == LE(if length <= 255 then 1 else 2, |s|) + s
    ensures Decode(data + rest, ColumnOf(Char(length)), ignore) == Ok(Str(s), |data|)
  {
    TextRead(length, s, rest);
    AsChar(data + rest, length, ignore);
  }

  lemma VarcharRead(length: nat, s: bytes, data: bytes, rest: bytes, ignore: bool)
    requires Declarable(Varchar(length)) && |s| <= length && data == LE(if length <= 255 then 1 else 2, |s|) + s
    ensures Decode(data + rest, ColumnOf(Varchar(length)), ignore) == Ok(Str(s), |data|)
  {
    TextRead(length, s, rest);
    AsVarchar(data + rest, length, ignore);
  }

  lemma BlobRead(k: nat, b: bytes, rest: bytes, ignore: bool)
    requires Declarable(BlobOf(k)) && |b| < Pow256(k)
    ensures Decode(LE(k, |b|) + b + rest, ColumnOf(BlobOf(k)), ignore) == Ok(Blob(b), k + |b|)
  {
    PrefixedRoundTrip(k, b, rest);
  }

  /** A document has a length of four bytes. */
  lemma JsonRead(doc: Jsonb.Doc, data: bytes, rest: bytes, ignore: bool)
    requires JsonbEncoder.DocFits(doc) && |JsonbEncoder.EncodeDocument(doc)| < Pow256(4)
    requires data == LE(4, |JsonbEncoder.EncodeDocument(doc)|) + JsonbEncoder.EncodeDocument(doc)
    ensures Decode(data + rest, ColumnOf(JsonText), ignore) == Ok(Json(Jsonb.Erase(doc)), |data|)
  {
    DocumentForm(doc, data);
    DecodeEncode(Document(doc), ColumnOf(JsonText), rest, ignore);
  }

  lemma DocumentForm(doc: Jsonb.Doc, data: bytes)
    requires JsonbEncoder.DocFits(doc) && |JsonbEncoder.EncodeDocument(doc)| < Pow256(4)
    requires data == LE(4, |JsonbEncoder.EncodeDocument(doc)|) + JsonbEncoder.EncodeDocument(doc)
    ensures Fits(Document(doc), ColumnOf(JsonText)) && Encode(Document(doc), ColumnOf(JsonText)) == data
  {
  }

  /** Seconds since the epoch, before servers knew fractions. */
  lemma OldTimestampRead(sec: nat, rest: bytes, meta: nat, ignore: bool)
    requires sec < Pow256(4) && meta < 0x1_0000
    ensures Decode(LE(4, sec) + rest, Column(7, meta, false), ignore) == Ok(Stamp(sec, 0), 4)
  {
    FixedRoundTrip(4, sec, rest);
  }

  /** Seconds, then the fraction at half a byte a digit, rounded up. */
  lemma TimestampRead(fsp: nat, sec: nat, units: nat, data: bytes, rest: bytes, ignore: bool)
    requires fsp <= 6 && sec < Pow256(4) && units < Pow256((fsp + 1) / 2)
    requires data == BE(4, sec) + BE((fsp + 1) / 2, units)
    ensures var usec := units * if fsp <= 2 then 1_0000 else if fsp <= 4 then 100 else 1;
      Decode(data + rest, ColumnOf(Timestamp(fsp)), ignore) == Ok(Stamp(sec, usec), |data|)
  {
    StampParts(fsp, sec, units, data + rest, rest);
    AsTimestamp(data + rest, fsp, ignore);
  }

  lemma StampParts(fsp: nat, sec: nat, units: nat, data: bytes, rest: bytes)
    requires fsp <= 6 && sec < Pow256(4) && units < Pow256((fsp + 1) / 2)
    requires data == BE(4, sec) + BE((fsp + 1) / 2, units) + rest
    ensures var usec := units * if fsp <= 2 then 1_0000 else if fsp <= 4 then 100 else 1;
      DecodeTimestamp2(data, fsp) == Ok(Stamp(sec, usec), 4 + (fsp + 1) / 2)
  {
    var usec := units * if fsp <= 2 then 1_0000 else if fsp <= 4 then 100 else 1;
    UnitsAre(fsp, units, usec);
    StampRoundTrip(sec, usec, fsp, rest);
  }

  /** 17 bits for year and month, five for day and hour, six for minute and second, biased; then the fraction. */
  lemma DatetimeRead(fsp: nat, v: Value, units: nat, data: bytes, rest: bytes, ignore: bool)
    requires fsp <= 6 && FitsMoment(v) && units < Pow256((fsp + 1) / 2)
    requires v.usec == units * if fsp <= 2 then 1_0000 else if fsp <= 4 then 100 else 1
    requires var packed :=
        (v.year * 13 + v.month) * 0x40_0000 + v.day * 0x2_0000 + v.hour * 0x1000 + v.minute * 64 + v.second;
      data == BE(5, 0x80_0000_0000 + packed) + BE((fsp + 1) / 2, units)
    ensures Decode(data + rest, ColumnOf(Datetime(fsp)), ignore) == Ok(v, |data|)
  {
    PackedIs(v);
    UnitsAre(fsp, units, v.usec);
    MomentRead(fsp, v, data, rest, ignore);
  }

  lemma MomentRead(fsp: nat, v: Value, data: bytes, rest: bytes, ignore: bool)
    requires fsp <= 6 && FitsMoment(v) && FitsFraction(v.usec, fsp)
    requires data == BE(5, PackMoment(v) + 0x80_0000_0000) + EncodeFraction(v.usec, fsp)
    ensures Decode(data + rest, Column(18, fsp, false), ignore) == Ok(v, |data|)
  {
    MomentEncoded(v, fsp);
    DecodeEncode(Plain(v), Column(18, fsp, false), rest, ignore);
  }

  lemma PackedIs(v: Value)
    requires v.Moment?
    ensures PackMoment(v)
         == (v.year * 13 + v.month) * 0x40_0000 + v.day * 0x2_0000 + v.hour * 0x1000 + v.minute * 64 + v.second
  {
  }

  lemma MomentEncoded(v: Value, fsp: nat)
    requires fsp <= 6 && FitsMoment(v) && FitsFraction(v.usec, fsp)
    ensures Fits(Plain(v), Column(18, fsp, false))
    ensures Encode(Plain(v), Column(18, fsp, false))
         == BE(5, PackMoment(v) + 0x80_0000_0000) + EncodeFraction(v.usec, fsp)
  {
  }

  lemma UnitsAre(fsp: nat, units: nat, usec: nat)
    requires fsp <= 6 && units < Pow256((fsp + 1) / 2)
    requires usec == units * if fsp <= 2 then 1_0000 else if fsp <= 4 then 100 else 1
    ensures FitsFraction(usec, fsp) && EncodeFraction(usec, fsp) == BE((fsp + 1) / 2, units)
  {
    assert fsp == 0 ==> units == 0;
  }

  /** The form of TIME is that of its own module. */
  lemma TimeRead(fsp: nat, t: Time2Column.Time, b: bytes, rest: bytes, ignore: bool)
    requires fsp <= 6 && Time2Column.Representable(t, fsp) && b == Time2Column.Encode(t, fsp)
    ensures Decode(b + rest, ColumnOf(TimeOfDay(fsp)), ignore) == Ok(Clock(t), |b|)
  {
    Time2Column.DecodeEncode(t, fsp, rest);
    AsTime(b + rest, fsp, ignore);
  }
}
