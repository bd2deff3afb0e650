/**
 FlashbackData2 in replication/row_event_parser.go and the rows branch of
 parseEventRewrite in replication/parser_ext.go: an event's bytes are rewritten
 so that applying them undoes the event. The row data are those of an event that
 is not compressed or already decompressed, and convUpdateToWrite is off; the row
 filter is an arbitrary test on the decoded first image.
 */
module FlashbackRewrite {
  import opened Bits
  import opened Bytes
  import opened Lists
  import opened RowImage
  import opened RowValue

  const EVENT_HEADER_SIZE := 19
  const EVENT_TYPE_POS := 4
  const EVENT_SIZE_POS := 9

  // ----- the event type -----

  const WRITE_V1: byte := 23
  const UPDATE_V1: byte := 24
  const DELETE_V1: byte := 25
  const WRITE_V2: byte := 30
  const UPDATE_V2: byte := 31
  const DELETE_V2: byte := 32

  /** The type switch; 51 to 56 are the compressed forms of 23, 24, 25, 30, 31 and 32. */
  function SwapType(t: byte): (r: byte) {
    if t == WRITE_V1 || t == 51 then DELETE_V1
    else if t == WRITE_V2 || t == 54 then DELETE_V2
    else if t == DELETE_V1 || t == 53 then WRITE_V1
    else if t == DELETE_V2 || t == 56 then WRITE_V2
    else if t == 52 then UPDATE_V1
    else if t == 55 then UPDATE_V2
    else t
  }

  datatype Kind = Insert | Update | Delete | Other

  function KindOf(t: byte): (k: Kind) {
    if t in {20, 23, 30, 51, 54} then Insert
    else if t in {21, 24, 31, 52, 55} then Update
    else if t in {22, 25, 32, 53, 56} then Delete
    else Other
  }

  function Opposite(k: Kind): (r: Kind) {
    match k
    case Insert => Delete
    case Delete => Insert
    case _ => k
  }

  /** The rewritten event is of the opposite kind exactly when it is not an insert or delete of version 0. */
  lemma SwapsKind(t: byte)
    ensures KindOf(SwapType(t)) == Opposite(KindOf(t)) <==> t != 20 && t != 22
    ensures SwapType(SwapType(t)) == t <==> !(51 <= t <= 56)
  {
  }

  // ----- cutting the row data into its images -----

  /** The images of one row and the bytes each was read from; an event with one image per row has no second. */
  datatype Piece = Piece(first: Image, raw1: bytes, second: Image, raw2: bytes)

  const NO_IMAGE := Image([], [])

  /** One turn of the loop; taking the bytes of an image that claims more than there are panics. */
  function Cut(data: bytes, s: Shape): (r: Read<Piece>)
    ensures r.Ok? ==> r.n <= |data| && r.value.raw1 + r.value.raw2 == data[..r.n]
    ensures r.Ok? && !s.needBitmap2 ==> r.value.raw2 == []
  {
    match ImageOf(data, s.cols, s.bitmap1, s.codec.dec)
    case Fault => Fault
    case Hang => Hang
    case Ok(first, n) =>
      if n > |data| then Fault
      else if !s.needBitmap2 then
        ConcatEmpty(data[..n]);
        Ok(Piece(first, data[..n], NO_IMAGE, []), n)
      else match ImageOf(data[n..], s.cols, s.bitmap2, s.codec.dec)
        case Fault => Fault
        case Hang => Hang
        case Ok(second, m) =>
          if n + m > |data| then Fault
          else
            TwoSlices(data, n, n + m);
            Ok(Piece(first, data[..n], second, data[n..n + m]), n + m)
  }

  lemma TwoSlices(data: bytes, i: nat, j: nat)
    requires i <= j <= |data|
    ensures data[..i] + data[i..j] == data[..j]
  {
  }

  function Then(p: Piece, rest: Read<seq<Piece>>): (r: Read<seq<Piece>>) {
    match rest
    case Ok(ps, n) => Ok([p] + ps, n)
    case Fault => Fault
    case Hang => Hang
  }

  function Pieces(data: bytes, s: Shape): (r: Read<seq<Piece>>)
    decreases |data|
  {
    if data == [] then Ok([], 0)
    else
      match Cut(data, s)
      case Fault => Fault
      case Hang => Hang
      case Ok(p, n) => if n == 0 then Hang else Then(p, Pieces(data[n..], s))
  }

  // ----- what is written -----

  /** How the filter sees a row: it is converted in place, then tested. */
  datatype Filter = Filter(convert: Row -> Row, matches: Row -> bool)

  function Seen(f: Option<Filter>, row: Row): (r: Row) { if f.None? then row else f.value.convert(row) }

  predicate Keeps(f: Option<Filter>, p: Piece) { f.None? || f.value.matches(f.value.convert(p.first.row)) }

  /** The filter sees the first image of a row, converted, and no other. */
  lemma FilterSeesFirst(convert: Row -> Row, matches: Row -> bool, p: Piece, q: Piece)
    ensures Keeps(Some(Filter(convert, matches)), p) <==> matches(convert(p.first.row))
    ensures p.first.row == q.first.row ==>
      Keeps(Some(Filter(convert, matches)), p) == Keeps(Some(Filter(convert, matches)), q)
    ensures Keeps(None, p)
  {
  }

  function Kept(ps: seq<Piece>, f: Option<Filter>): (ks: seq<Piece>) {
    if ps == [] then [] else (if Keeps(f, ps[0]) then [ps[0]] else []) + Kept(ps[1..], f)
  }

  /** The images of each piece, the second before the first. */
  function Swapped(ps: seq<Piece>): (b: bytes) {
    if ps == [] then [] else ps[0].raw2 + ps[0].raw1 + Swapped(ps[1..])
  }

  /** The rows in the order they were read. */
  function RowsRead(ps: seq<Piece>, f: Option<Filter>, two: bool): (rows: seq<Row>) {
    if ps == [] then []
    else [Seen(f, ps[0].first.row)] + (if two then [ps[0].second.row] else []) + RowsRead(ps[1..], f, two)
  }

  function SwapPairs(rows: seq<Row>): (r: seq<Row>)
    ensures |r| == |rows|
  {
    if |rows| < 2 then rows else [rows[1], rows[0]] + SwapPairs(rows[2..])
  }

  lemma {:induction false} SwappedSum(a: seq<Piece>, b: seq<Piece>)
    ensures Swapped(a + b) == Swapped(a) + Swapped(b)
  {
    if a == [] {
      assert a + b == b;
    } else {
      SwappedSum(a[1..], b);
      DropConcat(a, b, 1);
      ConcatAssoc(a[0].raw2 + a[0].raw1, Swapped(a[1..]), Swapped(b));
    }
  }

  lemma {:induction false} KeptSum(a: seq<Piece>, b: seq<Piece>, f: Option<Filter>)
    ensures Kept(a + b, f) == Kept(a, f) + Kept(b, f)
  {
    if a == [] {
      assert a + b == b;
    } else {
      KeptSum(a[1..], b, f);
      DropConcat(a, b, 1);
      ConcatAssoc(if Keeps(f, a[0]) then [a[0]] else [], Kept(a[1..], f), Kept(b, f));
    }
  }

  lemma {:induction false} RowsReadSum(a: seq<Piece>, b: seq<Piece>, f: Option<Filter>, two: bool)
    ensures RowsRead(a + b, f, two) == RowsRead(a, f, two) + RowsRead(b, f, two)
  {
    if a == [] {
      assert a + b == b;
    } else {
      RowsReadSum(a[1..], b, f, two);
      DropConcat(a, b, 1);
      ConcatAssoc([Seen(f, a[0].first.row)] + (if two then [a[0].second.row] else []), RowsRead(a[1..], f, two),
        RowsRead(b, f, two));
    }
  }

  lemma {:induction false} KeptAll(ps: seq<Piece>)
    ensures Kept(ps, None) == ps
  {
    if ps != [] {
      KeptAll(ps[1..]);
      HeadTail(ps);
    }
  }

  // ----- rewriting twice -----

  /** The rewritten row data, without a filter. */
  function Rewritten(data: bytes, s: Shape): (b: bytes)
    requires Pieces(data, s).Ok?
  {
    Swapped(Pieces(data, s).value)
  }

  /** The two bitmaps hold the same columns: the event carries full row images. */
  ghost predicate SameColumns(s: Shape) {
    && BitmapByteSize(|s.cols|) <= |s.bitmap1| && BitmapByteSize(|s.cols|) <= |s.bitmap2|
    && forall i :: 0 <= i < |s.cols| ==> Holds(s.bitmap1, i) == Holds(s.bitmap2, i)
  }

  lemma {:induction false} CountSame(s: Shape, n: nat)
    requires SameColumns(s) && n <= |s.cols|
    ensures PresentCount(s.bitmap1, 0, n) == PresentCount(s.bitmap2, 0, n)
  {
    if n > 0 {
      CountSame(s, n - 1);
      assert Holds(s.bitmap1, n - 1) == Holds(s.bitmap2, n - 1);
    }
  }

  lemma {:induction false} ColumnsSame(s: Shape, nulls: bytes, data: bytes, pos: nat, i: nat, rank: nat)
    requires SameColumns(s)
    ensures Columns(s.cols, s.bitmap1, nulls, data, pos, i, rank, s.codec.dec)
         == Columns(s.cols, s.bitmap2, nulls, data, pos, i, rank, s.codec.dec)
    decreases |s.cols| - i
  {
    if i < |s.cols| {
      assert Holds(s.bitmap1, i) == Holds(s.bitmap2, i);
      if !Holds(s.bitmap1, i) {
        ColumnsSame(s, nulls, data, pos, i + 1, rank);
      } else if rank / 8 < |nulls| {
        if IsBitSet(nulls, rank) {
          ColumnsSame(s, nulls, data, pos, i + 1, rank + 1);
        } else if pos <= |data| {
          var v := s.codec.dec(data[pos..], s.cols[i]);
          if v.Ok? { ColumnsSame(s, nulls, data, pos + v.n, i + 1, rank + 1); }
        }
      }
    }
  }

  lemma ImageSame(s: Shape, data: bytes)
    requires SameColumns(s)
    ensures ImageOf(data, s.cols, s.bitmap1, s.codec.dec) == ImageOf(data, s.cols, s.bitmap2, s.codec.dec)
  {
    CountSame(s, |s.cols|);
    var count := BitmapByteSize(PresentCount(s.bitmap1, 0, |s.cols|));
    if count <= |data| { ColumnsSame(s, data[..count], data, count, 0, 0); }
  }

  /** An image depends only on the bytes it consumes. */
  lemma {:induction false} ColumnsLocal(cols: seq<Column>, bitmap: bytes, nulls: bytes, a: bytes, b: bytes, pos: nat,
                                        i: nat, rank: nat, dec: Decoder)
    requires Local(dec)
    requires var r := Columns(cols, bitmap, nulls, a, pos, i, rank, dec); r.Ok? && pos <= r.n && Same(a, b, r.n)
    ensures Columns(cols, bitmap, nulls, b, pos, i, rank, dec) == Columns(cols, bitmap, nulls, a, pos, i, rank, dec)
    decreases |cols| - i
  {
    if i < |cols| {
      var n := Columns(cols, bitmap, nulls, a, pos, i, rank, dec).n;
      if !Holds(bitmap, i) {
        ColumnsLocal(cols, bitmap, nulls, a, b, pos, i + 1, rank, dec);
      } else if IsBitSet(nulls, rank) {
        ColumnsLocal(cols, bitmap, nulls, a, b, pos, i + 1, rank + 1, dec);
      } else {
        var v := dec(a[pos..], cols[i]);
        var next := pos + v.n;
        ColumnsValue(cols, bitmap, nulls, a, pos, i, rank, dec, v.value, next);
        ColumnsGrow(cols, bitmap, nulls, a, next, i + 1, rank + 1, dec);
        ColumnsLocal(cols, bitmap, nulls, a, b, next, i + 1, rank + 1, dec);
        ValueLocal(cols, bitmap, nulls, a, b, pos, i, rank, dec, n, v.value, next);
      }
    }
  }

  lemma ValueLocal(cols: seq<Column>, bitmap: bytes, nulls: bytes, a: bytes, b: bytes, pos: nat, i: nat, rank: nat,
                   dec: Decoder, n: nat, v: Value, next: nat)
    requires Local(dec) && i < |cols| && Holds(bitmap, i) && rank / 8 < |nulls| && !IsBitSet(nulls, rank)
    requires Same(a, b, n) && pos <= next <= n && dec(a[pos..], cols[i]) == Ok(v, next - pos)
    ensures Columns(cols, bitmap, nulls, b, pos, i, rank, dec)
         == Cell(v, Columns(cols, bitmap, nulls, b, next, i + 1, rank + 1, dec))
  {
    SameTail(a, b, n, pos, next - pos);
    ColumnsValue(cols, bitmap, nulls, b, pos, i, rank, dec, v, next);
  }

  lemma SameTail(a: bytes, b: bytes, n: nat, pos: nat, m: nat)
    requires Same(a, b, n) && pos + m <= n
    ensures Same(a[pos..], b[pos..], m)
  {
    SameSlice(a, b, n, pos, pos + m);
    SliceOfTail(a, pos, pos + m);
    SliceOfTail(b, pos, pos + m);
  }

  lemma {:induction false} ColumnsGrow(cols: seq<Column>, bitmap: bytes, nulls: bytes, data: bytes, pos: nat, i: nat,
                                       rank: nat, dec: Decoder)
    requires Columns(cols, bitmap, nulls, data, pos, i, rank, dec).Ok?
    ensures pos <= Columns(cols, bitmap, nulls, data, pos, i, rank, dec).n
    decreases |cols| - i
  {
    if i < |cols| {
      if !Holds(bitmap, i) {
        ColumnsGrow(cols, bitmap, nulls, data, pos, i + 1, rank, dec);
      } else if IsBitSet(nulls, rank) {
        ColumnsGrow(cols, bitmap, nulls, data, pos, i + 1, rank + 1, dec);
      } else {
        ColumnsGrow(cols, bitmap, nulls, data, pos + dec(data[pos..], cols[i]).n, i + 1, rank + 1, dec);
      }
    }
  }

  lemma ImageLocal(a: bytes, b: bytes, cols: seq<Column>, bitmap: bytes, dec: Decoder)
    requires Local(dec)
    requires var r := ImageOf(a, cols, bitmap, dec); r.Ok? && Same(a, b, r.n)
    ensures ImageOf(b, cols, bitmap, dec) == ImageOf(a, cols, bitmap, dec)
  {
    var n := ImageOf(a, cols, bitmap, dec).n;
    var count := BitmapByteSize(PresentCount(bitmap, 0, |cols|));
    ColumnsGrow(cols, bitmap, a[..count], a, count, 0, 0, dec);
    SameSlice(a, b, n, 0, count);
    ColumnsLocal(cols, bitmap, a[..count], a, b, count, 0, 0, dec);
  }

  /** The same rows, each with its images exchanged. */
  function Exchange(p: Piece): (q: Piece) { Piece(p.second, p.raw2, p.first, p.raw1) }

  lemma CutExchanged(data: bytes, s: Shape, rest: bytes)
    requires Local(s.codec.dec) && s.needBitmap2 && SameColumns(s) && Cut(data, s).Ok?
    ensures var c := Cut(data, s); Cut(c.value.raw2 + c.value.raw1 + rest, s) == Ok(Exchange(c.value), c.n)
  {
    var p := Cut(data, s).value;
    var n, m := |p.raw1|, |p.raw2|;
    ImageSame(s, data);
    ImageSame(s, data[n..]);
    var b := p.raw2 + p.raw1 + rest;
    Middle(p.raw2, p.raw1, rest);
    assert data[n..][..m] == p.raw2 == b[..m];
    ImageLocal(data[n..], b, s.cols, s.bitmap2, s.codec.dec);
    ImageSame(s, b);
    assert b[m..][..n] == p.raw1 == data[..n];
    ImageLocal(data, b[m..], s.cols, s.bitmap1, s.codec.dec);
    ImageSame(s, b[m..]);
    CutOfTwo(b, s, p.second, m, p.first, n, p.raw2, p.raw1);
  }

  lemma CutOfTwo(b: bytes, s: Shape, first: Image, n: nat, second: Image, m: nat, raw1: bytes, raw2: bytes)
    requires s.needBitmap2 && n + m <= |b| && b[..n] == raw1 && b[n..n + m] == raw2
    requires ImageOf(b, s.cols, s.bitmap1, s.codec.dec) == Ok(first, n)
    requires ImageOf(b[n..], s.cols, s.bitmap2, s.codec.dec) == Ok(second, m)
    ensures Cut(b, s) == Ok(Piece(first, raw1, second, raw2), n + m)
  {
  }

  function ExchangeAll(ps: seq<Piece>): (qs: seq<Piece>) {
    if ps == [] then [] else [Exchange(ps[0])] + ExchangeAll(ps[1..])
  }

  lemma PiecesStep(data: bytes, s: Shape, p: Piece, n: nat)
    requires Cut(data, s) == Ok(p, n) && 0 < n <= |data|
    ensures Pieces(data, s) == Then(p, Pieces(data[n..], s))
  {
  }

  /** Reading the rewritten update rows gives the same rows with before and after exchanged. */
  lemma {:induction false} PiecesExchanged(data: bytes, s: Shape)
    requires Local(s.codec.dec) && s.needBitmap2 && SameColumns(s) && Pieces(data, s).Ok?
    ensures Pieces(Rewritten(data, s), s) == Ok(ExchangeAll(Pieces(data, s).value), 0)
    decreases |data|
  {
    if data != [] {
      var c := Cut(data, s);
      var p, n := c.value, c.n;
      var tail := Rewritten(data[n..], s);
      PiecesExchanged(data[n..], s);
      CutExchanged(data, s, tail);
      var b := p.raw2 + p.raw1 + tail;
      assert Pieces(data, s).value[1..] == Pieces(data[n..], s).value;
      DropPrefix(p.raw2 + p.raw1, tail);
      PiecesStep(b, s, Exchange(p), n);
    }
  }

  lemma {:induction false} SwappedTwice(data: bytes, s: Shape)
    requires Pieces(data, s).Ok?
    ensures Swapped(ExchangeAll(Pieces(data, s).value)) == data
    ensures !s.needBitmap2 ==> Rewritten(data, s) == data
    decreases |data|
  {
    if data != [] {
      var c := Cut(data, s);
      var p, n := c.value, c.n;
      SwappedTwice(data[n..], s);
      assert Pieces(data, s).value[1..] == Pieces(data[n..], s).value;
      PrefixSplit(data[..n], data);
      if !s.needBitmap2 { ConcatEmpty(p.raw1); assert [] + p.raw1 == p.raw1; }
    }
  }

  /** Rewriting the rewritten row data restores it, whatever rows the event holds. */
  lemma RewriteTwice(data: bytes, s: Shape)
    requires Local(s.codec.dec) && Pieces(data, s).Ok? && (s.needBitmap2 ==> SameColumns(s))
    ensures Pieces(Rewritten(data, s), s).Ok? && Rewritten(Rewritten(data, s), s) == data
  {
    SwappedTwice(data, s);
    if s.needBitmap2 { PiecesExchanged(data, s); }
  }

  // ----- the rows that match, on their own -----

  /** The row data that hold these rows and no others. */
  function Joined(ps: seq<Piece>): (b: bytes) {
    if ps == [] then [] else ps[0].raw1 + ps[0].raw2 + Joined(ps[1..])
  }

  lemma CutAgain(data: bytes, s: Shape, rest: bytes)
    requires Local(s.codec.dec) && Cut(data, s).Ok?
    ensures var c := Cut(data, s); Cut(c.value.raw1 + c.value.raw2 + rest, s) == Ok(c.value, c.n)
  {
    var p := Cut(data, s).value;
    var n, m := |p.raw1|, |p.raw2|;
    var b := p.raw1 + p.raw2 + rest;
    assert b[..n] == p.raw1 == data[..n];
    ImageLocal(data, b, s.cols, s.bitmap1, s.codec.dec);
    if s.needBitmap2 {
      Middle(p.raw1, p.raw2, rest);
      assert b[n..][..m] == p.raw2 == data[n..][..m];
      ImageLocal(data[n..], b[n..], s.cols, s.bitmap2, s.codec.dec);
      CutOfTwo(b, s, p.first, n, p.second, m, p.raw1, p.raw2);
    }
  }

  lemma {:induction false} JoinedIsData(data: bytes, s: Shape)
    requires Pieces(data, s).Ok?
    ensures Joined(Pieces(data, s).value) == data
    decreases |data|
  {
    if data != [] {
      var c := Cut(data, s);
      JoinedIsData(data[c.n..], s);
      assert Pieces(data, s).value[1..] == Pieces(data[c.n..], s).value;
      PrefixSplit(data[..c.n], data);
    }
  }

  /** The rows that a filter keeps, put together, are read as those rows. */
  lemma {:induction false} KeptReadAlone(data: bytes, s: Shape, f: Option<Filter>)
    requires Local(s.codec.dec) && Pieces(data, s).Ok?
    ensures var ks := Kept(Pieces(data, s).value, f); Pieces(Joined(ks), s) == Ok(ks, 0)
    decreases |data|
  {
    if data != [] {
      var c := Cut(data, s);
      var p, n := c.value, c.n;
      KeptReadAlone(data[n..], s, f);
      var ks := Kept(Pieces(data[n..], s).value, f);
      assert Pieces(data, s).value[1..] == Pieces(data[n..], s).value;
      assert [] + ks == ks;
      if Keeps(f, p) {
        CutAgain(data, s, Joined(ks));
        assert ([p] + ks)[1..] == ks;
        DropPrefix(p.raw1 + p.raw2, Joined(ks));
        PiecesStep(p.raw1 + p.raw2 + Joined(ks), s, p, n);
      }
    }
  }

  // ----- rewriting what a server wrote -----

  function Turned(cs: seq<Change>): (ts: seq<Change>) {
    if cs == [] then [] else [Change(cs[0].second, cs[0].first)] + Turned(cs[1..])
  }

  /** The shape that fits the rewritten images: each image keeps the columns it had. */
  function Turn2(s: Shape): (t: Shape) { s.(bitmap1 := s.bitmap2, bitmap2 := s.bitmap1) }

  lemma {:induction false} TurnedFit(cs: seq<Change>, s: Shape)
    requires AllFit(cs, s)
    ensures AllFit(Turned(cs), Turn2(s))
  {
    if cs != [] {
      TurnedFit(cs[1..], s);
      assert Turned(cs)[1..] == Turned(cs[1..]);
    }
  }

  lemma CutEncoded(c: Change, s: Shape, rest: bytes)
    requires Covers(s) && s.needBitmap2 && ChangeFits(c, s)
    ensures Cut(EncodeChange(c, s) + rest, s)
         == Ok(Piece(ShownImage(s.bitmap1, c.first), EncodeImage(s.codec, s.cols, s.bitmap1, c.first),
                     ShownImage(s.bitmap2, c.second), EncodeImage(s.codec, s.cols, s.bitmap2, c.second)),
                       |EncodeChange(c, s)|)
  {
    var a, b := EncodeImage(s.codec, s.cols, s.bitmap1, c.first), EncodeImage(s.codec, s.cols, s.bitmap2, c.second);
    ConcatAssoc(a, b, rest);
    ImageRoundTrip(s.codec, s.cols, s.bitmap1, c.first, b + rest);
    DropPrefix(a, b + rest);
    TakeFront(a, b + rest);
    ImageRoundTrip(s.codec, s.cols, s.bitmap2, c.second, rest);
    Middle(a, b, rest);
    CutOfTwo(a + b + rest, s, ShownImage(s.bitmap1, c.first), |a|, ShownImage(s.bitmap2, c.second), |b|, a, b);
  }

  /** The rewritten row data of an update is the encoding of the opposite updates. */
  lemma {:induction false} RewrittenEncoding(cs: seq<Change>, s: Shape, data: bytes)
    requires Covers(s) && s.needBitmap2 && AllFit(cs, s) && data == EncodeChanges(cs, s)
    ensures AllFit(Turned(cs), Turn2(s)) && Pieces(data, s).Ok?
    ensures Rewritten(data, s) == EncodeChanges(Turned(cs), Turn2(s))
    decreases |cs|
  {
    TurnedFit(cs, s);
    if cs != [] {
      var e, tail := EncodeChange(cs[0], s), EncodeChanges(cs[1..], s);
      RewrittenEncoding(cs[1..], s, tail);
      CutEncoded(cs[0], s, tail);
      ChangeTakesSpace(cs[0], s);
      DropPrefix(e, tail);
      PiecesStep(data, s, Cut(data, s).value, |e|);
      assert Pieces(data, s).value[1..] == Pieces(tail, s).value;
      assert Turned(cs)[1..] == Turned(cs[1..]);
    }
  }

  lemma {:induction false} SkippedAreNotHeld(bitmap: bytes, n: nat, i: nat, j: nat)
    ensures j in SkipsFrom(bitmap, n, i) <==> i <= j < n && !Holds(bitmap, j)
    decreases n - i
  {
    if i < n {
      SkippedAreNotHeld(bitmap, n, i + 1, j);
      var rest := SkipsFrom(bitmap, n, i + 1);
      assert j in [i] + rest <==> j == i || j in rest;
    }
  }

  lemma {:induction false} SkipsRead(cols: seq<Column>, bitmap: bytes, nulls: bytes, data: bytes, pos: nat, i: nat,
                                     rank: nat, dec: Decoder)
    requires i <= |cols| && Columns(cols, bitmap, nulls, data, pos, i, rank, dec).Ok?
    ensures Columns(cols, bitmap, nulls, data, pos, i, rank, dec).value.skips == SkipsFrom(bitmap, |cols|, i)
    decreases |cols| - i
  {
    if i < |cols| {
      if !Holds(bitmap, i) {
        SkipsRead(cols, bitmap, nulls, data, pos, i + 1, rank, dec);
      } else if IsBitSet(nulls, rank) {
        SkipsRead(cols, bitmap, nulls, data, pos, i + 1, rank + 1, dec);
      } else {
        SkipsRead(cols, bitmap, nulls, data, pos + dec(data[pos..], cols[i]).n, i + 1, rank + 1, dec);
      }
    }
  }

  /** The first image read always has the columns of the first bitmap. */
  lemma FirstSkips(data: bytes, s: Shape)
    requires data != [] && Rows(data, s).Ok?
    ensures var images := Rows(data, s).value; images != [] && images[0].skips == SkipsFrom(s.bitmap1, |s.cols|, 0)
  {
    var count := BitmapByteSize(PresentCount(s.bitmap1, 0, |s.cols|));
    SkipsRead(s.cols, s.bitmap1, data[..count], data, count, 0, 0, s.codec.dec);
    assert Turn(data, s).value[0].skips == SkipsFrom(s.bitmap1, |s.cols|, 0);
  }

  lemma {:induction false} RowsSame(data: bytes, s: Shape)
    requires SameColumns(s)
    ensures Rows(data, s) == Rows(data, Turn2(s))
    decreases |data|
  {
    if data != [] {
      TurnSame(data, s);
      var t := Turn(data, s);
      if t.Ok? && 0 < t.n <= |data| { RowsSame(data[t.n..], s); }
    }
  }

  lemma TurnSame(data: bytes, s: Shape)
    requires SameColumns(s)
    ensures Turn(data, s) == Turn(data, Turn2(s))
  {
    ImageSame(s, data);
    var r := ImageOf(data, s.cols, s.bitmap1, s.codec.dec);
    if r.Ok? && r.n <= |data| { ImageSame(s, data[r.n..]); }
  }

  /**
   The rewritten event keeps its header, so its first images are read with the
   first bitmap although the second one describes them: a reader of the
   rewritten update sees the exchanged images exactly when the two bitmaps
   hold the same columns.
   */
  lemma ReadsBack(cs: seq<Change>, s: Shape, data: bytes)
    requires Covers(s) && s.needBitmap2 && AllFit(cs, s) && data == EncodeChanges(cs, s) && cs != []
    ensures Pieces(data, s).Ok?
    ensures Rows(Rewritten(data, s), s) == Ok(ShownChanges(Turned(cs), Turn2(s)), |data|) <==> SameColumns(s)
  {
    RewrittenEncoding(cs, s, data);
    var out := Rewritten(data, s);
    RowsRoundTrip(Turned(cs), Turn2(s), out);
    SameLength(cs, s);
    if SameColumns(s) {
      RowsSame(out, s);
    } else if Rows(out, s) == Ok(ShownChanges(Turned(cs), Turn2(s)), |data|) {
      OnlySameColumns(cs, s, out);
    }
  }

  lemma {:induction false} SameLength(cs: seq<Change>, s: Shape)
    requires s.needBitmap2 && AllFit(cs, s) && AllFit(Turned(cs), Turn2(s))
    ensures |EncodeChanges(Turned(cs), Turn2(s))| == |EncodeChanges(cs, s)|
  {
    if cs != [] {
      assert Turned(cs)[1..] == Turned(cs[1..]);
      SameLength(cs[1..], s);
    }
  }

  lemma OnlySameColumns(cs: seq<Change>, s: Shape, out: bytes)
    requires Covers(s) && s.needBitmap2 && AllFit(cs, s) && cs != [] && out != []
    requires Rows(out, s).Ok? && Rows(out, s).value == ShownChanges(Turned(cs), Turn2(s))
    ensures SameColumns(s)
  {
    FirstSkips(out, s);
    assert Turned(cs)[0] == Change(cs[0].second, cs[0].first);
    assert ShownChanges(Turned(cs), Turn2(s))[0] == ShownImage(s.bitmap2, cs[0].second);
    forall i | 0 <= i < |s.cols| ensures Holds(s.bitmap1, i) == Holds(s.bitmap2, i) {
      SkippedAreNotHeld(s.bitmap1, |s.cols|, 0, i);
      SkippedAreNotHeld(s.bitmap2, |s.cols|, 0, i);
    }
  }
}
