/**
 The headers of a rows event: EventHeader in replication/event.go, newRowsEvent
 in replication/parser.go, which settles version and layout by the event type,
 and DecodeHeader and decodeExtraData in replication/row_event.go. A version 2
 header holds extra data that a version 1 header does not.
 */
module RowsHeader {
  import opened Bits
  import opened Bytes
  import opened FlashbackRewrite

  const PARTIAL_UPDATE: byte := 39

  /** Extra data of version 2; an update between partitions has a source as well. */
  datatype Extra = NoExtra | Ndb(format: byte, data: bytes) | Partition(id: nat) | Partitions(id: nat, source: nat)
                 | Unknown

  datatype Header = Header(tableId: nat, flags: nat, extra: Extra, columnCount: nat, bitmap1: bytes, bitmap2: bytes)

  /** What the type says of the header: extra data, a second bitmap, partitions with a source. */
  datatype Layout = Layout(version2: bool, two: bool, sources: bool)

  // ----- the reader -----

  datatype EventHeader = EventHeader(timestamp: nat, eventType: byte, serverId: nat, eventSize: nat, logPos: nat,
                                     flags: nat)

  /** EventHeader.Decode; None is an error. */
  function ReadEventHeader(b: bytes): (r: Option<EventHeader>) {
    if |b| < 19 || FromLE(b[9..13]) < 19 then None
    else
      var timestamp, serverId, size := FromLE(b[..4]), FromLE(b[5..9]), FromLE(b[9..13]);
      Some(EventHeader(timestamp, b[4], serverId, size, FromLE(b[13..17]), FromLE(b[17..19])))
  }

  function Version(t: byte): (v: nat) {
    if t in {WRITE_V2, UPDATE_V2, DELETE_V2, PARTIAL_UPDATE, 54, 55, 56} then 2
    else if t in {WRITE_V1, UPDATE_V1, DELETE_V1, 51, 52, 53, 166, 167, 168} then 1
    else 0
  }

  /** An update of version 0 has no second bitmap. */
  predicate NeedsBitmap2(t: byte) { t in {UPDATE_V1, UPDATE_V2, PARTIAL_UPDATE, 52, 55, 167} }

  predicate Compressed(t: byte) { 51 <= t <= 56 || 166 <= t <= 168 }

  function LayoutOf(t: byte): (l: Layout) {
    Layout(Version(t) == 2, NeedsBitmap2(t), t == UPDATE_V1 || t == UPDATE_V2 || t == PARTIAL_UPDATE)
  }

  /** binary.LittleEndian.Uint16 */
  function Uint16(d: bytes, at: nat): (n: nat)
    requires at + 2 <= |d|
    ensures n < 0x1_0000
  {
    var low: nat, high: nat := d[at], d[at + 1];
    low + 256 * high
  }

  /** decodeExtraData; None is a panic. */
  function ReadExtra(data: bytes, sources: bool): (r: Option<Extra>) {
    if |data| < 1 then None
    else if data[0] == 0 then
      if |data| < 3 then None
      else
        var length: nat := data[1];
        if length < 2 || |data| < 1 + length then None else Some(Ndb(data[2], data[3..1 + length]))
    else if data[0] == 1 then
      if |data| < 3 then None
      else if !sources then Some(Partition(Uint16(data, 1)))
      else if |data| < 5 then None
      else Some(Partitions(Uint16(data, 1), Uint16(data, 3)))
    else Some(Unknown)
  }

  /** The part that only version 2 has; the length counts its own two bytes and is a uint16. */
  function ReadExtras(d: bytes, l: Layout): (r: Option<(Extra, nat)>)
    ensures r.Some? ==> r.value.1 <= |d|
  {
    if !l.version2 then Some((NoExtra, 0))
    else if |d| < 2 then None
    else
      var length := Uint16(d, 0);
      var n := if length < 2 then length + 0x1_0000 else length;
      var extra := if length > 2 then ReadExtra(d[2..], l.sources) else Some(NoExtra);
      if extra.None? || |d| < n then None else Some((extra.value, n))
  }

  /** bitmapByteSize of a 64-bit count taken for an int: from 14 below its end on the quotient is zero. */
  function BitmapSize(count: nat): (n: nat) {
    if count + 14 >= 0x1_0000_0000_0000_0000 then 0 else BitmapByteSize(count)
  }

  /** The column count and the bitmaps. */
  function ReadBitmaps(d: bytes, two: bool): (r: Option<(nat, bytes, bytes, nat)>)
    ensures r.Some? ==> r.value.3 <= |d|
  {
    match LengthEncodedInt(d)
    case None => None
    case Some(LenEnc(count, _, n)) =>
      var m := BitmapSize(count);
      if !two then
        if |d| < n + m then None else Some((count, d[n..n + m], [], n + m))
      else if |d| < n + 2 * m then None
      else Some((count, d[n..n + m], d[n + m..n + 2 * m], n + 2 * m))
  }

  /** What follows the flags. */
  datatype Rest = Rest(extra: Extra, columnCount: nat, bitmap1: bytes, bitmap2: bytes, n: nat)

  function ReadRest(d: bytes, l: Layout): (r: Option<Rest>)
    ensures r.Some? ==> r.value.n <= |d|
  {
    match ReadExtras(d, l)
    case None => None
    case Some((extra, n)) =>
      match ReadBitmaps(d[n..], l.two)
      case None => None
      case Some((count, bitmap1, bitmap2, m)) => Some(Rest(extra, count, bitmap1, bitmap2, n + m))
  }

  /** DecodeHeader before the look-up of the table: the header and where the rows begin; None is a panic. */
  function ReadHeader(body: bytes, l: Layout, idSize: nat): (r: Option<(Header, nat)>)
    ensures r.Some? ==> r.value.1 <= |body|
  {
    if |body| < idSize + 2 then None
    else
      match ReadRest(body[idSize + 2..], l)
      case None => None
      case Some(Rest(extra, count, bitmap1, bitmap2, n)) =>
        Some((Header(FromLE(body[..idSize]), FromLE(body[idSize..idSize + 2]), extra, count, bitmap1, bitmap2),
              idSize + 2 + n))
  }

  // ----- what a server writes -----

  function PutUint16(n: nat): (b: bytes)
    requires n < 0x1_0000
    ensures |b| == 2
  {
    [n % 256, n / 256]
  }

  function WriteExtra(x: Extra): (b: bytes)
    requires ExtraFits(x)
    ensures |b| <= 256
  {
    match x
    case Ndb(format, data) => [0, |data| + 2, format] + data
    case Partition(id) => [1] + PutUint16(id)
    case Partitions(id, source) => [1] + PutUint16(id) + PutUint16(source)
    case _ => []
  }

  predicate ExtraFits(x: Extra) {
    match x
    case Ndb(_, data) => |data| <= 253
    case Partition(id) => id < 0x1_0000
    case Partitions(id, source) => id < 0x1_0000 && source < 0x1_0000
    case _ => true
  }

  function WriteExtras(x: Extra, version2: bool): (b: bytes)
    requires ExtraFits(x)
  {
    if version2 then PutUint16(2 + |WriteExtra(x)|) + WriteExtra(x) else []
  }

  predicate HeaderFits(h: Header, idSize: nat) {
    && h.tableId < Pow256(idSize) && h.flags < 0x1_0000 && h.columnCount < 0x1_0000 && h.columnCount < Pow256(8)
    && |h.bitmap1| == (h.columnCount + 7) / 8 && ExtraFits(h.extra)
  }

  /** The header is one of the layout. */
  predicate HasLayout(h: Header, l: Layout) {
    && |h.bitmap2| == (if l.two then |h.bitmap1| else 0) && (!l.version2 ==> h.extra == NoExtra)
    && (h.extra.Partition? ==> !l.sources) && (h.extra.Partitions? ==> l.sources) && h.extra != Unknown
  }

  function WriteRest(h: Header, version2: bool): (b: bytes)
    requires ExtraFits(h.extra) && h.columnCount < Pow256(8)
  {
    WriteExtras(h.extra, version2) + (PutLengthEncodedInt(h.columnCount) + (h.bitmap1 + h.bitmap2))
  }

  function WriteHeader(h: Header, idSize: nat, version2: bool): (b: bytes)
    requires HeaderFits(h, idSize)
  {
    LE(idSize, h.tableId) + LE(2, h.flags) + WriteRest(h, version2)
  }

  lemma ExtraRead(x: Extra, sources: bool, rest: bytes)
    requires ExtraFits(x) && x != NoExtra && x != Unknown
    requires (x.Partition? ==> !sources) && (x.Partitions? ==> sources)
    ensures ReadExtra(WriteExtra(x) + rest, sources) == Some(x)
  {
    if x.Ndb? { assert (WriteExtra(x) + rest)[3..3 + |x.data|] == x.data; }
  }

  lemma ExtrasRead(h: Header, l: Layout, rest: bytes)
    requires ExtraFits(h.extra) && HasLayout(h, l)
    ensures var e := WriteExtras(h.extra, l.version2); ReadExtras(e + rest, l) == Some((h.extra, |e|))
  {
    if l.version2 {
      var e := WriteExtra(h.extra);
      var d := PutUint16(2 + |e|) + e + rest;
      assert d[2..] == e + rest;
      if h.extra != NoExtra { ExtraRead(h.extra, l.sources, rest); }
    }
  }

  lemma BitmapsRead(c: bytes, count: nat, bitmap1: bytes, bitmap2: bytes, two: bool, rest: bytes)
    requires LengthEncodedInt(c + (bitmap1 + bitmap2 + rest)) == Some(LenEnc(count, false, |c|))
    requires count < 0x1_0000 && |bitmap1| == (count + 7) / 8 && |bitmap2| == if two then |bitmap1| else 0
    ensures ReadBitmaps(c + (bitmap1 + bitmap2 + rest), two)
         == Some((count, bitmap1, bitmap2, |c| + |bitmap1| + |bitmap2|))
  {
    var d, n, m := c + (bitmap1 + bitmap2 + rest), |c|, |bitmap1|;
    assert d[n..n + m] == bitmap1;
    if two { assert d[n + m..n + 2 * m] == bitmap2; }
  }

  lemma RestOfParts(d: bytes, l: Layout, x: Extra, n: nat, maps: bytes, c: nat, b1: bytes, b2: bytes, m: nat)
    requires n <= |d| && maps == d[n..] && ReadExtras(d, l) == Some((x, n))
    requires ReadBitmaps(maps, l.two) == Some((c, b1, b2, m))
    ensures ReadRest(d, l) == Some(Rest(x, c, b1, b2, n + m))
  {
  }

  lemma HeaderOfParts(d: bytes, l: Layout, idSize: nat, id: nat, flags: nat, tail: bytes, r: Rest)
    requires |d| >= idSize + 2 && tail == d[idSize + 2..] && ReadRest(tail, l) == Some(r)
    requires FromLE(d[..idSize]) == id && FromLE(d[idSize..idSize + 2]) == flags
    ensures ReadHeader(d, l, idSize)
         == Some((Header(id, flags, r.extra, r.columnCount, r.bitmap1, r.bitmap2), idSize + 2 + r.n))
  {
  }

  /** What is left of a header, in n bytes. */
  function RestOf(h: Header, n: nat): (r: Rest) { Rest(h.extra, h.columnCount, h.bitmap1, h.bitmap2, n) }

  lemma RestRead(h: Header, l: Layout, e: bytes, c: bytes, maps: bytes, rest: bytes)
    requires h.columnCount < 0x1_0000 && |h.bitmap1| == (h.columnCount + 7) / 8 && HasLayout(h, l)
    requires maps == c + (h.bitmap1 + h.bitmap2 + rest)
    requires LengthEncodedInt(maps) == Some(LenEnc(h.columnCount, false, |c|))
    requires ReadExtras(e + maps, l) == Some((h.extra, |e|))
    ensures ReadRest(e + maps, l) == Some(RestOf(h, |e| + (|c| + |h.bitmap1| + |h.bitmap2|)))
  {
    BitmapsRead(c, h.columnCount, h.bitmap1, h.bitmap2, l.two, rest);
    RestJoins(e, maps, l, h.extra, h.columnCount, h.bitmap1, h.bitmap2, |c| + |h.bitmap1| + |h.bitmap2|);
  }

  lemma RestJoins(e: bytes, tail: bytes, l: Layout, x: Extra, c: nat, b1: bytes, b2: bytes, m: nat)
    requires ReadExtras(e + tail, l) == Some((x, |e|)) && ReadBitmaps(tail, l.two) == Some((c, b1, b2, m))
    ensures ReadRest(e + tail, l) == Some(Rest(x, c, b1, b2, |e| + m))
  {
    assert (e + tail)[|e|..] == tail;
    RestOfParts(e + tail, l, x, |e|, tail, c, b1, b2, m);
  }

  lemma PartsLie(ids: bytes, flags: bytes, tail: bytes, d: bytes)
    requires |flags| == 2 && d == ids + flags + tail
    ensures d[..|ids|] == ids && d[|ids|..|ids| + 2] == flags && d[|ids| + 2..] == tail
  {
  }

  /** A header that a server writes is read back, whatever rows follow it. */
  lemma HeaderRoundTrip(h: Header, l: Layout, idSize: nat, rest: bytes)
    requires HeaderFits(h, idSize) && HasLayout(h, l)
    ensures var b := WriteHeader(h, idSize, l.version2); ReadHeader(b + rest, l, idSize) == Some((h, |b|))
  {
    RestWritten(h, l, idSize, rest);
    HeaderBytes(h, idSize, l.version2, rest);
    NumbersJoin(h, idSize, WriteRest(h, l.version2) + rest, WriteHeader(h, idSize, l.version2) + rest, l,
                RestOf(h, |WriteRest(h, l.version2)|));
  }

  lemma HeaderBytes(h: Header, idSize: nat, version2: bool, rest: bytes)
    requires HeaderFits(h, idSize)
    ensures WriteHeader(h, idSize, version2) + rest
         == LE(idSize, h.tableId) + LE(2, h.flags) + (WriteRest(h, version2) + rest)
    ensures |WriteHeader(h, idSize, version2)| == idSize + 2 + |WriteRest(h, version2)|
  {
  }

  lemma NumbersJoin(h: Header, idSize: nat, tail: bytes, d: bytes, l: Layout, r: Rest)
    requires h.tableId < Pow256(idSize) && h.flags < 0x1_0000 && ReadRest(tail, l) == Some(r)
    requires d == LE(idSize, h.tableId) + LE(2, h.flags) + tail
    ensures ReadHeader(d, l, idSize)
         == Some((Header(h.tableId, h.flags, r.extra, r.columnCount, r.bitmap1, r.bitmap2), idSize + 2 + r.n))
  {
    NumbersRead(h, idSize);
    HeaderJoins(LE(idSize, h.tableId), LE(2, h.flags), tail, d, l, h.tableId, h.flags, r);
  }

  lemma NumbersRead(h: Header, idSize: nat)
    requires h.tableId < Pow256(idSize) && h.flags < 0x1_0000
    ensures FromLE(LE(idSize, h.tableId)) == h.tableId && FromLE(LE(2, h.flags)) == h.flags
  {
    LittleEndianRoundTrip(idSize, h.tableId);
    assert Pow256(2) == 0x1_0000;
    LittleEndianRoundTrip(2, h.flags);
  }

  lemma HeaderJoins(ids: bytes, flags: bytes, tail: bytes, d: bytes, l: Layout, id: nat, f: nat, r: Rest)
    requires |flags| == 2 && FromLE(ids) == id && FromLE(flags) == f && ReadRest(tail, l) == Some(r)
    requires d == ids + flags + tail
    ensures ReadHeader(d, l, |ids|)
         == Some((Header(id, f, r.extra, r.columnCount, r.bitmap1, r.bitmap2), |ids| + 2 + r.n))
  {
    PartsLie(ids, flags, tail, d);
    HeaderOfParts(d, l, |ids|, id, f, tail, r);
  }

  lemma RestWritten(h: Header, l: Layout, idSize: nat, rest: bytes)
    requires HeaderFits(h, idSize) && HasLayout(h, l)
    ensures ReadRest(WriteRest(h, l.version2) + rest, l) == Some(RestOf(h, |WriteRest(h, l.version2)|))
  {
    var e, c := WriteExtras(h.extra, l.version2), PutLengthEncodedInt(h.columnCount);
    var maps := c + (h.bitmap1 + h.bitmap2 + rest);
    LengthEncodedIntRoundTrip(h.columnCount, h.bitmap1 + h.bitmap2 + rest);
    ExtrasRead(h, l, maps);
    RestRead(h, l, e, c, maps, rest);
    Regroup(e, c, h.bitmap1, h.bitmap2, rest);
  }

  lemma Regroup(e: bytes, c: bytes, b1: bytes, b2: bytes, rest: bytes)
    ensures e + (c + (b1 + b2)) + rest == e + (c + (b1 + b2 + rest))
  {
  }

  /**
   The types of the binlog format: 23 to 25 are of version 1, 30 to 32 of version 2, 51 to 56 their
   compressed forms, 39 a partial update; updates have two bitmaps. Partitions of a compressed
   update are read without their source.
   */
  lemma LayoutsAre(t: byte)
    ensures LayoutOf(t).version2 <==> t in {30, 31, 32, 39, 54, 55, 56}
    ensures LayoutOf(t).two <==> t in {24, 31, 39, 52, 55, 167}
    ensures LayoutOf(t).sources <==> t in {24, 31, 39}
    ensures Compressed(t) <==> t in {51, 52, 53, 54, 55, 56, 166, 167, 168}
  {
  }

  /**
   The length of the extra data counts its own two bytes, so nothing is left of a length of two. A
   smaller one wraps around: 65536 more bytes are passed over, and refused where they are missing.
   */
  lemma ExtraLengths(d: bytes, l: Layout)
    requires l.version2 && |d| >= 2 && Uint16(d, 0) <= 2
    ensures Uint16(d, 0) == 2 ==> ReadExtras(d, l) == Some((NoExtra, 2))
    ensures Uint16(d, 0) < 2 ==>
      ReadExtras(d, l) == if |d| < 0x1_0000 + Uint16(d, 0) then None else Some((NoExtra, 0x1_0000 + Uint16(d, 0)))
  {
  }

  // ----- the header of a rewritten event -----

  /** The new type is of the same version, with as many bitmaps, and not compressed. */
  lemma KeepsVersion(t: byte)
    ensures t in {23, 24, 25, 51, 52, 53} ==> SwapType(t) in {23, 24, 25}
    ensures t in {30, 31, 32, 54, 55, 56} ==> SwapType(t) in {30, 31, 32}
    ensures Version(SwapType(t)) == Version(t) && NeedsBitmap2(SwapType(t)) == NeedsBitmap2(t)
    ensures Compressed(SwapType(t)) ==> 166 <= t <= 168
  {
  }

  /**
   So the header is read as it was, except that the partition of a compressed update is read with
   a source from then on.
   */
  lemma SameHeader(body: bytes, t: byte, idSize: nat)
    ensures LayoutOf(SwapType(t)) == LayoutOf(t) <==> t != 52 && t != 55
    ensures t != 55 ==> ReadHeader(body, LayoutOf(SwapType(t)), idSize) == ReadHeader(body, LayoutOf(t), idSize)
  {
    if |body| >= idSize + 2 && t == 52 { OldHasNone(body[idSize + 2..], LayoutOf(52), LayoutOf(24)); }
  }

  lemma OldHasNone(d: bytes, a: Layout, b: Layout)
    requires !a.version2 && !b.version2 && a.two == b.two
    ensures ReadRest(d, a) == ReadRest(d, b)
  {
  }

  /** A header that is whole is read alike in front of any rows. */
  lemma HeaderLocal(body: bytes, l: Layout, idSize: nat, rest: bytes)
    requires ReadHeader(body, l, idSize).Some? && ReadHeader(body, l, idSize).value.0.columnCount > 0
    ensures ReadHeader(body + rest, l, idSize) == ReadHeader(body, l, idSize)
  {
    var d, h := body[idSize + 2..], ReadHeader(body, l, idSize).value.0;
    TailsLie(body, rest, idSize + 2);
    RestLocal(d, l, rest);
    assert (body + rest)[..idSize] == body[..idSize] && (body + rest)[idSize..idSize + 2] == body[idSize..idSize + 2];
    HeaderOfParts(body + rest, l, idSize, h.tableId, h.flags, d + rest, ReadRest(d, l).value);
  }

  lemma RestLocal(d: bytes, l: Layout, rest: bytes)
    requires ReadRest(d, l).Some? && ReadRest(d, l).value.columnCount > 0
    ensures ReadRest(d + rest, l) == ReadRest(d, l)
  {
    var n := ReadExtras(d, l).value.1;
    TailsLie(d, rest, n);
    ExtrasLocal(d, l, rest);
    BitmapsLocal(d[n..], l.two, rest);
  }

  lemma TailsLie(body: bytes, rest: bytes, i: nat)
    requires i <= |body|
    ensures (body + rest)[i..] == body[i..] + rest
  {
  }

  lemma SliceLocal(d: bytes, rest: bytes, i: nat, j: nat)
    requires i <= j <= |d|
    ensures (d + rest)[i..j] == d[i..j]
  {
  }

  lemma ExtrasLocal(d: bytes, l: Layout, rest: bytes)
    requires ReadExtras(d, l).Some?
    ensures ReadExtras(d + rest, l) == ReadExtras(d, l)
  {
    if l.version2 {
      assert (d + rest)[2..] == d[2..] + rest;
      if Uint16(d, 0) > 2 { ExtraLocal(d[2..], l.sources, rest); }
    }
  }

  lemma ExtraLocal(d: bytes, sources: bool, rest: bytes)
    requires ReadExtra(d, sources).Some?
    ensures ReadExtra(d + rest, sources) == ReadExtra(d, sources)
  {
    if d[0] == 0 {
      var length: nat := d[1];
      SliceLocal(d, rest, 3, 1 + length);
    }
  }

  lemma BitmapsLocal(d: bytes, two: bool, rest: bytes)
    requires ReadBitmaps(d, two).Some? && ReadBitmaps(d, two).value.0 > 0
    ensures ReadBitmaps(d + rest, two) == ReadBitmaps(d, two)
  {
    CountLocal(d, rest);
    var n := LengthEncodedInt(d).value.n;
    var m := BitmapSize(LengthEncodedInt(d).value.num);
    SliceLocal(d, rest, n, n + m);
    if two { SliceLocal(d, rest, n + m, n + 2 * m); }
  }

  lemma CountLocal(d: bytes, rest: bytes)
    requires d != [] && LengthEncodedInt(d).Some?
    ensures LengthEncodedInt(d + rest) == LengthEncodedInt(d)
  {
    var e := d + rest;
    if d[0] == 0xfc { assert e[1..3] == d[1..3]; }
    if d[0] == 0xfd { assert e[1..4] == d[1..4]; }
    if d[0] == 0xfe { assert e[1..9] == d[1..9]; }
  }
}
