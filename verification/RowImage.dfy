/**
 decodeImage and DecodeData in replication/row_event.go: the row images of a
 rows event. Which columns an image holds is told by a column bitmap; the null
 bitmap in front of it has one bit per column held, so it is indexed by rank.
 The row data are those of an event that is not compressed or already
 decompressed. Partial JSON updates are not modelled.
 */
module RowImage {
  import opened Bits
  import opened Bytes
  import opened Lists
  import opened RowValue

  type Row = seq<Value>

  /** How a column value is read. */
  type Decoder = (bytes, Column) -> Read<Value>

  /** Which values a column holds, how a server writes them and how they are read. */
  datatype Codec = Codec(fits: (Stored, Column) -> bool, enc: (Stored, Column) -> bytes, dec: Decoder)

  /** decodeValue against the binlog format; column metadata is a 16-bit number. */
  function ValueCodec(ignore: bool): (k: Codec) {
    Codec((s: Stored, c: Column) => Fits(s, c),
          (s: Stored, c: Column) => if Fits(s, c) then Encode(s, c) else [],
          (data: bytes, c: Column) => if c.meta < 0x1_0000 then Decode(data, c, ignore) else Fault)
  }

  /** Every value is read back from its written form, and exactly that form is consumed. */
  ghost predicate Faithful(k: Codec) {
    forall s: Stored, c: Column, rest: bytes :: k.fits(s, c)
      ==> k.dec(k.enc(s, c) + rest, c) == Ok(Shown(s), |k.enc(s, c)|)
  }

  /** Only the bytes consumed matter. */
  ghost predicate Local(dec: Decoder) {
    forall a: bytes, b: bytes, c: Column :: dec(a, c).Ok? && Same(a, b, dec(a, c).n) ==> dec(b, c) == dec(a, c)
  }

  /** What the rest of this module needs of a codec holds of decodeValue. */
  lemma ValueCodecIsFaithful(ignore: bool)
    ensures Faithful(ValueCodec(ignore)) && Local(ValueCodec(ignore).dec)
  {
    var k := ValueCodec(ignore);
    forall s: Stored, c: Column, rest: bytes | k.fits(s, c)
      ensures k.dec(k.enc(s, c) + rest, c) == Ok(Shown(s), |k.enc(s, c)|) {
      DecodeEncode(s, c, rest, ignore);
    }
    forall a: bytes, b: bytes, c: Column | k.dec(a, c).Ok? && Same(a, b, k.dec(a, c).n)
      ensures k.dec(b, c) == k.dec(a, c) {
      DecodeLocal(a, b, c, ignore);
    }
  }

  /** A decoded image: one value per column, nil where the column is NULL or not held, and the columns not held. */
  datatype Image = Image(row: Row, skips: seq<nat>)

  // ----- the decoder -----

  function Cell(v: Value, rest: Read<Image>): (r: Read<Image>) {
    match rest
    case Ok(im, n) => Ok(Image([v] + im.row, im.skips), n)
    case Fault => Fault
    case Hang => Hang
  }

  function Skip(i: nat, rest: Read<Image>): (r: Read<Image>) {
    match rest
    case Ok(im, n) => Ok(Image([Nil] + im.row, [i] + im.skips), n)
    case Fault => Fault
    case Hang => Hang
  }

  /** The column loop of decodeImage from column i, with `rank` columns held before it. */
  function Columns(cols: seq<Column>, bitmap: bytes, nulls: bytes, data: bytes, pos: nat, i: nat, rank: nat,
                   dec: Decoder)
    : (r: Read<Image>)
    decreases |cols| - i
  {
    if i >= |cols| then Ok(Image([], []), pos)
    else if i / 8 >= |bitmap| then Fault
    else if !IsBitSet(bitmap, i) then Skip(i, Columns(cols, bitmap, nulls, data, pos, i + 1, rank, dec))
    else if rank / 8 >= |nulls| then Fault
    else if IsBitSet(nulls, rank) then Cell(Nil, Columns(cols, bitmap, nulls, data, pos, i + 1, rank + 1, dec))
    else if pos > |data| then Fault
    else
      match dec(data[pos..], cols[i])
      case Ok(v, n) => Cell(v, Columns(cols, bitmap, nulls, data, pos + n, i + 1, rank + 1, dec))
      case Fault => Fault
      case Hang => Hang
  }

  function ImageOf(data: bytes, cols: seq<Column>, bitmap: bytes, dec: Decoder): (r: Read<Image>)
  {
    if |bitmap| < BitmapByteSize(|cols|) then Fault
    else
      var count := BitmapByteSize(PresentCount(bitmap, 0, |cols|));
      if |data| < count then Fault else Columns(cols, bitmap, data[..count], data, count, 0, 0, dec)
  }

  /** What an event says about every image in it. */
  datatype Shape = Shape(cols: seq<Column>, bitmap1: bytes, bitmap2: bytes, needBitmap2: bool, codec: Codec)

  /** One turn of the row loop: one image, or for an update two. */
  function Turn(data: bytes, s: Shape): (r: Read<seq<Image>>)
  {
    match ImageOf(data, s.cols, s.bitmap1, s.codec.dec)
    case Fault => Fault
    case Hang => Hang
    case Ok(first, n) =>
      if !s.needBitmap2 then Ok([first], n)
      else if n > |data| then Fault
      else match ImageOf(data[n..], s.cols, s.bitmap2, s.codec.dec)
        case Fault => Fault
        case Hang => Hang
        case Ok(second, m) => Ok([first, second], n + m)
  }

  function Before(images: seq<Image>, n: nat, rest: Read<seq<Image>>): (r: Read<seq<Image>>) {
    match rest
    case Ok(more, m) => Ok(images + more, n + m)
    case Fault => Fault
    case Hang => Hang
  }

  /** The row loop: until the data is used up; a turn that consumes nothing would repeat forever. */
  function Rows(data: bytes, s: Shape): (r: Read<seq<Image>>)
    decreases |data|
  {
    if data == [] then Ok([], 0)
    else
      match Turn(data, s)
      case Fault => Fault
      case Hang => Hang
      case Ok(images, n) =>
        if n == 0 then Hang
        else if n > |data| then Ok(images, n)
        else Before(images, n, Rows(data[n..], s))
  }

  // ----- the binlog format -----

  /** One cell per column; None is NULL. Cells of columns that are not held do not matter. */
  type StoredRow = seq<Option<Stored>>

  predicate Holds(bitmap: bytes, i: nat) { i / 8 < |bitmap| && IsBitSet(bitmap, i) }

  predicate RowFits(k: Codec, cols: seq<Column>, row: StoredRow) {
    |row| == |cols| && forall i :: 0 <= i < |cols| && row[i].Some? ==> k.fits(row[i].value, cols[i])
  }

  function NullsFrom(bitmap: bytes, row: StoredRow, i: nat): (flags: seq<bool>)
    decreases |row| - i
  {
    if i >= |row| then []
    else if Holds(bitmap, i) then [row[i].None?] + NullsFrom(bitmap, row, i + 1)
    else NullsFrom(bitmap, row, i + 1)
  }

  function BodyFrom(k: Codec, cols: seq<Column>, bitmap: bytes, row: StoredRow, i: nat): (b: bytes)
    requires RowFits(k, cols, row)
    decreases |row| - i
  {
    if i >= |row| then []
    else if Holds(bitmap, i) && row[i].Some? then k.enc(row[i].value, cols[i]) + BodyFrom(k, cols, bitmap, row, i + 1)
    else BodyFrom(k, cols, bitmap, row, i + 1)
  }

  function EncodeImage(k: Codec, cols: seq<Column>, bitmap: bytes, row: StoredRow): (b: bytes)
    requires RowFits(k, cols, row)
  {
    PackBits(NullsFrom(bitmap, row, 0)) + BodyFrom(k, cols, bitmap, row, 0)
  }

  function ShownFrom(bitmap: bytes, row: StoredRow, i: nat): (r: Row)
    decreases |row| - i
  {
    if i >= |row| then []
    else [if Holds(bitmap, i) && row[i].Some? then Shown(row[i].value) else Nil] + ShownFrom(bitmap, row, i + 1)
  }

  function SkipsFrom(bitmap: bytes, n: nat, i: nat): (skips: seq<nat>)
    decreases n - i
  {
    if i >= n then [] else if Holds(bitmap, i) then SkipsFrom(bitmap, n, i + 1) else [i] + SkipsFrom(bitmap, n, i + 1)
  }

  function ShownImage(bitmap: bytes, row: StoredRow): (im: Image) {
    Image(ShownFrom(bitmap, row, 0), SkipsFrom(bitmap, |row|, 0))
  }

  // ----- one image -----

  lemma {:induction false} NullCount(bitmap: bytes, row: StoredRow, i: nat)
    requires i <= |row| && BitmapByteSize(|row|) <= |bitmap|
    ensures |NullsFrom(bitmap, row, i)| == PresentCount(bitmap, i, |row|)
    decreases |row| - i
  {
    if i < |row| {
      NullCount(bitmap, row, i + 1);
      FirstColumn(bitmap, i, |row|);
    }
  }

  lemma FirstColumn(bitmap: bytes, i: nat, n: nat)
    requires i < n && BitmapByteSize(n) <= |bitmap|
    ensures PresentCount(bitmap, i, n) == PresentCount(bitmap, i + 1, n) + if Holds(bitmap, i) then 1 else 0
  {
    PresentCountSplit(bitmap, i, i + 1, n);
    assert PresentCount(bitmap, i, i) == 0;
  }

  lemma RankBit(flags: seq<bool>, rank: nat)
    requires rank < |flags|
    ensures rank / 8 < |PackBits(flags)| && IsBitSet(PackBits(flags), rank) == flags[rank]
  {
    PackedBit(flags, rank);
  }

  /** One value of the column loop. */
  lemma ColumnsValue(cols: seq<Column>, bitmap: bytes, nulls: bytes, data: bytes, pos: nat, i: nat, rank: nat,
                     dec: Decoder, v: Value, next: nat)
    requires i < |cols| && Holds(bitmap, i) && rank / 8 < |nulls| && !IsBitSet(nulls, rank) && pos <= |data|
    requires pos <= next && dec(data[pos..], cols[i]) == Ok(v, next - pos)
    ensures Columns(cols, bitmap, nulls, data, pos, i, rank, dec)
      == Cell(v, Columns(cols, bitmap, nulls, data, next, i + 1, rank + 1, dec))
  {
  }

  lemma ValueStep(k: Codec, cols: seq<Column>, bitmap: bytes, nulls: bytes, pre: bytes, s: Stored, e: bytes,
                  tail: bytes,
                  i: nat, rank: nat, data: bytes)
    requires Faithful(k) && i < |cols| && Holds(bitmap, i) && rank / 8 < |nulls| && !IsBitSet(nulls, rank)
      && k.fits(s, cols[i])
    requires e == k.enc(s, cols[i]) && data == pre + e + tail
    ensures Columns(cols, bitmap, nulls, data, |pre|, i, rank, k.dec)
         == Cell(Shown(s), Columns(cols, bitmap, nulls, data, |pre + e|, i + 1, rank + 1, k.dec))
  {
    ConcatAssoc(pre, e, tail);
    DropPrefix(pre, e + tail);
    ColumnsValue(cols, bitmap, nulls, data, |pre|, i, rank, k.dec, Shown(s), |pre + e|);
  }

  lemma DropPrefix(pre: bytes, rest: bytes)
    ensures (pre + rest)[|pre|..] == rest
  {
  }

  /** Reading the columns from i on, wherever they lie, gives the cells from i on. */
  lemma {:induction false} ColumnsRoundTrip(k: Codec, cols: seq<Column>, bitmap: bytes, row: StoredRow,
                                            flags: seq<bool>,
                                            pre: bytes, rest: bytes, i: nat, rank: nat, data: bytes)
    requires Faithful(k) && RowFits(k, cols, row) && BitmapByteSize(|cols|) <= |bitmap| && i <= |cols|
    requires rank <= |flags| && flags[rank..] == NullsFrom(bitmap, row, i)
    requires data == pre + BodyFrom(k, cols, bitmap, row, i) + rest
    ensures Columns(cols, bitmap, PackBits(flags), data, |pre|, i, rank, k.dec)
         == Ok(Image(ShownFrom(bitmap, row, i), SkipsFrom(bitmap, |row|, i)), |pre + BodyFrom(k, cols, bitmap, row, i)|)
    decreases |cols| - i
  {
    if i < |cols| {
      var tail := BodyFrom(k, cols, bitmap, row, i + 1);
      if !Holds(bitmap, i) {
        ColumnsRoundTrip(k, cols, bitmap, row, flags, pre, rest, i + 1, rank, data);
      } else {
        NextFlag(bitmap, row, flags, i, rank);
        if row[i].None? {
          ColumnsRoundTrip(k, cols, bitmap, row, flags, pre, rest, i + 1, rank + 1, data);
        } else {
          var s := row[i].value;
          var e := k.enc(s, cols[i]);
          ConcatPair(pre, e, tail, rest);
          ConcatAssoc(pre, e, tail);
          ColumnsRoundTrip(k, cols, bitmap, row, flags, pre + e, rest, i + 1, rank + 1, data);
          ValueStep(k, cols, bitmap, PackBits(flags), pre, s, e, tail + rest, i, rank, data);
        }
      }
    } else {
      ConcatEmpty(pre);
    }
  }

  lemma NextFlag(bitmap: bytes, row: StoredRow, flags: seq<bool>, i: nat, rank: nat)
    requires i < |row| && Holds(bitmap, i) && rank <= |flags| && flags[rank..] == NullsFrom(bitmap, row, i)
    ensures rank < |flags| && rank / 8 < |PackBits(flags)| && IsBitSet(PackBits(flags), rank) == row[i].None?
    ensures flags[rank + 1..] == NullsFrom(bitmap, row, i + 1)
  {
    assert flags[rank..][0] == row[i].None? && flags[rank..][1..] == flags[rank + 1..];
    RankBit(flags, rank);
  }

  /** An image is read back whole from the front of anything. */
  lemma ImageRoundTrip(k: Codec, cols: seq<Column>, bitmap: bytes, row: StoredRow, rest: bytes)
    requires Faithful(k) && RowFits(k, cols, row) && BitmapByteSize(|cols|) <= |bitmap|
    ensures ImageOf(EncodeImage(k, cols, bitmap, row) + rest, cols, bitmap, k.dec)
         == Ok(ShownImage(bitmap, row), |EncodeImage(k, cols, bitmap, row)|)
  {
    var flags, body := NullsFrom(bitmap, row, 0), BodyFrom(k, cols, bitmap, row, 0);
    var nulls := PackBits(flags);
    NullCount(bitmap, row, 0);
    ConcatAssoc(nulls, body, rest);
    TakeFront(nulls, body + rest);
    assert flags[0..] == flags;
    ColumnsRoundTrip(k, cols, bitmap, row, flags, nulls, rest, 0, 0, nulls + body + rest);
  }

  // ----- a whole event -----

  /** One change: the image of the row, or its images before and after. */
  datatype Change = Change(first: StoredRow, second: StoredRow)

  predicate ChangeFits(c: Change, s: Shape) { RowFits(s.codec, s.cols, c.first) && RowFits(s.codec, s.cols, c.second) }

  predicate Sized(s: Shape) { BitmapByteSize(|s.cols|) <= |s.bitmap1| && BitmapByteSize(|s.cols|) <= |s.bitmap2| }

  /** The images of a row hold at least one column between them. */
  predicate HoldsSome(s: Shape)
    requires Sized(s)
  {
    PresentCount(s.bitmap1, 0, |s.cols|) > 0 || (s.needBitmap2 && PresentCount(s.bitmap2, 0, |s.cols|) > 0)
  }

  ghost predicate Covers(s: Shape) { Faithful(s.codec) && Sized(s) && HoldsSome(s) }

  function EncodeChange(c: Change, s: Shape): (b: bytes)
    requires ChangeFits(c, s)
  {
    EncodeImage(s.codec, s.cols, s.bitmap1, c.first)
      + if s.needBitmap2 then EncodeImage(s.codec, s.cols, s.bitmap2, c.second) else []
  }

  function ShownChange(c: Change, s: Shape): (images: seq<Image>) {
    [ShownImage(s.bitmap1, c.first)] + if s.needBitmap2 then [ShownImage(s.bitmap2, c.second)] else []
  }

  ghost predicate AllFit(cs: seq<Change>, s: Shape) {
    cs == [] || (ChangeFits(cs[0], s) && AllFit(cs[1..], s))
  }

  function EncodeChanges(cs: seq<Change>, s: Shape): (b: bytes)
    requires AllFit(cs, s)
  {
    if cs == [] then [] else EncodeChange(cs[0], s) + EncodeChanges(cs[1..], s)
  }

  function ShownChanges(cs: seq<Change>, s: Shape): (images: seq<Image>) {
    if cs == [] then [] else ShownChange(cs[0], s) + ShownChanges(cs[1..], s)
  }

  lemma TurnRoundTrip(c: Change, s: Shape, rest: bytes)
    requires Covers(s) && ChangeFits(c, s)
    ensures Turn(EncodeChange(c, s) + rest, s) == Ok(ShownChange(c, s), |EncodeChange(c, s)|)
  {
    var a := EncodeImage(s.codec, s.cols, s.bitmap1, c.first);
    if s.needBitmap2 {
      var b := EncodeImage(s.codec, s.cols, s.bitmap2, c.second);
      ConcatAssoc(a, b, rest);
      ImageRoundTrip(s.codec, s.cols, s.bitmap1, c.first, b + rest);
      DropPrefix(a, b + rest);
      ImageRoundTrip(s.codec, s.cols, s.bitmap2, c.second, rest);
      TurnOfTwo(a + b + rest, s, ShownImage(s.bitmap1, c.first), |a|, ShownImage(s.bitmap2, c.second), |b|);
    } else {
      ConcatEmpty(a);
      ImageRoundTrip(s.codec, s.cols, s.bitmap1, c.first, rest);
      ConcatEmpty([ShownImage(s.bitmap1, c.first)]);
      TurnOfOne(a + rest, s, ShownImage(s.bitmap1, c.first), |a|);
    }
  }

  lemma TurnOfOne(data: bytes, s: Shape, first: Image, n: nat)
    requires !s.needBitmap2 && ImageOf(data, s.cols, s.bitmap1, s.codec.dec) == Ok(first, n)
    ensures Turn(data, s) == Ok([first], n)
  {
  }

  lemma TurnOfTwo(data: bytes, s: Shape, first: Image, n: nat, second: Image, m: nat)
    requires s.needBitmap2 && ImageOf(data, s.cols, s.bitmap1, s.codec.dec) == Ok(first, n) && n <= |data|
    requires ImageOf(data[n..], s.cols, s.bitmap2, s.codec.dec) == Ok(second, m)
    ensures Turn(data, s) == Ok([first] + [second], n + m)
  {
    assert [first] + [second] == [first, second];
  }

  lemma ChangeTakesSpace(c: Change, s: Shape)
    requires Covers(s) && ChangeFits(c, s)
    ensures |EncodeChange(c, s)| > 0
  {
    NullCount(s.bitmap1, c.first, 0);
    NullCount(s.bitmap2, c.second, 0);
  }

  lemma RowsStep(data: bytes, s: Shape, images: seq<Image>, n: nat)
    requires Turn(data, s) == Ok(images, n) && 0 < n <= |data|
    ensures Rows(data, s) == Before(images, n, Rows(data[n..], s))
  {
  }

  /** The row loop returns exactly the rows of the event and consumes exactly its bytes. */
  lemma {:induction false} RowsRoundTrip(cs: seq<Change>, s: Shape, data: bytes)
    requires Covers(s) && AllFit(cs, s) && data == EncodeChanges(cs, s)
    ensures Rows(data, s) == Ok(ShownChanges(cs, s), |data|)
    decreases |cs|
  {
    if cs != [] {
      var e, tail := EncodeChange(cs[0], s), EncodeChanges(cs[1..], s);
      TurnRoundTrip(cs[0], s, tail);
      ChangeTakesSpace(cs[0], s);
      DropPrefix(e, tail);
      RowsRoundTrip(cs[1..], s, tail);
      RowsStep(data, s, ShownChange(cs[0], s), |e|);
    }
  }

  /** When no image holds a column every event body is empty, so the rows cannot be told. */
  lemma NothingHeld(cs: seq<Change>, s: Shape)
    requires AllFit(cs, s) && Sized(s) && !HoldsSome(s)
    ensures EncodeChanges(cs, s) == []
  {
    if cs != [] {
      var c := cs[0];
      NullCount(s.bitmap1, c.first, 0);
      NullCount(s.bitmap2, c.second, 0);
      NoBody(s.codec, s.cols, s.bitmap1, c.first, 0);
      if s.needBitmap2 { NoBody(s.codec, s.cols, s.bitmap2, c.second, 0); }
      NothingHeld(cs[1..], s);
    }
  }

  lemma {:induction false} NoBody(k: Codec, cols: seq<Column>, bitmap: bytes, row: StoredRow, i: nat)
    requires RowFits(k, cols, row) && i <= |row| && NullsFrom(bitmap, row, i) == []
    ensures BodyFrom(k, cols, bitmap, row, i) == []
    decreases |row| - i
  {
    if i < |row| { NoBody(k, cols, bitmap, row, i + 1); }
  }

  /**
   The rows of an event written and read with decodeValue's own codec: they come
   back whole exactly when some image of a row holds a column.
   */
  lemma ValueRowsRoundTrip(cs: seq<Change>, s: Shape, ignore: bool, data: bytes)
    requires s.codec == ValueCodec(ignore) && Sized(s) && AllFit(cs, s) && data == EncodeChanges(cs, s)
    ensures Rows(data, s) == Ok(ShownChanges(cs, s), |data|) <==> HoldsSome(s) || cs == []
  {
    if HoldsSome(s) {
      ValueCodecIsFaithful(ignore);
      RowsRoundTrip(cs, s, data);
    } else {
      NothingHeld(cs, s);
    }
  }
}
