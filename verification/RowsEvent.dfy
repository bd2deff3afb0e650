/**
 RowsEvent as the source runs it: decodeImage fills rows column by column, and
 DecodeData and FlashbackData2 walk the row data with one cursor.
 */
module RowsEvents {
  import opened Bits
  import opened Bytes
  import opened FlashbackRewrite
  import opened Lists
  import opened RowImage
  import opened RowValue

  // ----- loops against their specifications -----

  /** What the column loop has read, put in front of what it still has to read. */
  function After(row: Row, skips: seq<nat>, rest: Read<Image>): (r: Read<Image>) {
    match rest
    case Ok(im, n) => Ok(Image(row + im.row, skips + im.skips), n)
    case Fault => Fault
    case Hang => Hang
  }

  lemma AfterCell(row: Row, skips: seq<nat>, v: Value, rest: Read<Image>)
    ensures After(row, skips, Cell(v, rest)) == After(row + [v], skips, rest)
  {
    if rest.Ok? { ConcatAssoc(row, [v], rest.value.row); }
  }

  lemma AfterSkip(row: Row, skips: seq<nat>, i: nat, rest: Read<Image>)
    ensures After(row, skips, Skip(i, rest)) == After(row + [Nil], skips + [i], rest)
  {
    if rest.Ok? {
      ConcatAssoc(row, [Nil], rest.value.row);
      ConcatAssoc(skips, [i], rest.value.skips);
    }
  }

  lemma AfterNothing(row: Row, skips: seq<nat>, rest: Read<Image>, n: nat)
    ensures After([], [], rest) == rest && After(row, skips, Ok(Image([], []), n)) == Ok(Image(row, skips), n)
  {
    ConcatEmpty(row);
    ConcatEmpty(skips);
    if rest.Ok? { assert [] + rest.value.row == rest.value.row && [] + rest.value.skips == rest.value.skips; }
  }

  function AfterPieces(done: seq<Piece>, rest: Read<seq<Piece>>): (r: Read<seq<Piece>>) {
    match rest
    case Ok(ps, n) => Ok(done + ps, n)
    case Fault => Fault
    case Hang => Hang
  }

  lemma AfterPiece(done: seq<Piece>, p: Piece, rest: Read<seq<Piece>>)
    ensures AfterPieces(done, Then(p, rest)) == AfterPieces(done + [p], rest)
  {
    if rest.Ok? { ConcatAssoc(done, [p], rest.value); }
  }

  lemma AfterNoPieces(done: seq<Piece>, rest: Read<seq<Piece>>)
    ensures AfterPieces([], rest) == rest && AfterPieces(done, Ok([], 0)) == Ok(done, 0)
  {
    ConcatEmpty(done);
    if rest.Ok? { assert [] + rest.value == rest.value; }
  }

  function RowsOf(images: seq<Image>): (rows: seq<Row>) {
    if images == [] then [] else [images[0].row] + RowsOf(images[1..])
  }

  function SkipsOf(images: seq<Image>): (skips: seq<seq<nat>>) {
    if images == [] then [] else [images[0].skips] + SkipsOf(images[1..])
  }

  lemma {:induction false} RowsOfSum(a: seq<Image>, b: seq<Image>)
    ensures RowsOf(a + b) == RowsOf(a) + RowsOf(b) && SkipsOf(a + b) == SkipsOf(a) + SkipsOf(b)
  {
    if a == [] {
      assert a + b == b;
    } else {
      RowsOfSum(a[1..], b);
      DropConcat(a, b, 1);
      ConcatAssoc([a[0].row], RowsOf(a[1..]), RowsOf(b));
      ConcatAssoc([a[0].skips], SkipsOf(a[1..]), SkipsOf(b));
    }
  }

  lemma RowsOfOne(im: Image)
    ensures RowsOf([im]) == [im.row] && SkipsOf([im]) == [im.skips]
  {
    assert [im][1..] == [];
  }

  lemma BeforeStep(done: seq<Image>, at: nat, images: seq<Image>, n: nat, rest: Read<seq<Image>>)
    ensures Before(done, at, Before(images, n, rest)) == Before(done + images, at + n, rest)
  {
    if rest.Ok? { ConcatAssoc(done, images, rest.value); }
  }

  lemma BeforeNothing(done: seq<Image>, at: nat, rest: Read<seq<Image>>)
    ensures Before([], 0, rest) == rest && Before(done, at, Ok([], 0)) == Ok(done, at)
  {
    ConcatEmpty(done);
    if rest.Ok? { assert [] + rest.value == rest.value; }
  }

  /** The column loop of decodeImage. */
  method ReadColumns(cols: seq<Column>, bitmap: bytes, nulls: bytes, data: bytes, start: nat, dec: Decoder)
    returns (r: Read<Image>)
    requires BitmapByteSize(|cols|) <= |bitmap|
    ensures r == Columns(cols, bitmap, nulls, data, start, 0, 0, dec)
  {
    var row: Row, skips: seq<nat>, pos: nat, i: nat, rank: nat := [], [], start, 0, 0;
    ghost var goal := Columns(cols, bitmap, nulls, data, start, 0, 0, dec);
    AfterNothing([], [], goal, 0);
    while i < |cols|
      invariant i <= |cols|
      invariant goal == After(row, skips, Columns(cols, bitmap, nulls, data, pos, i, rank, dec))
    {
      if !IsBitSet(bitmap, i) {
        AfterSkip(row, skips, i, Columns(cols, bitmap, nulls, data, pos, i + 1, rank, dec));
        row, skips, i := row + [Nil], skips + [i], i + 1;
        continue;
      }
      if rank / 8 >= |nulls| { return Fault; }
      if IsBitSet(nulls, rank) {
        AfterCell(row, skips, Nil, Columns(cols, bitmap, nulls, data, pos, i + 1, rank + 1, dec));
        row, i, rank := row + [Nil], i + 1, rank + 1;
        continue;
      }
      if pos > |data| { return Fault; }
      var v := dec(data[pos..], cols[i]);
      if v.Hang? { return Hang; }
      if v.Fault? { return Fault; }
      AfterCell(row, skips, v.value, Columns(cols, bitmap, nulls, data, pos + v.n, i + 1, rank + 1, dec));
      row, pos, i, rank := row + [v.value], pos + v.n, i + 1, rank + 1;
    }
    AfterNothing(row, skips, goal, pos);
    r := Ok(Image(row, skips), pos);
  }

  /** Decompression of row data, if the event is compressed: any function that may fail. */
  type Inflate = bytes -> Option<bytes>

  function Inflated(f: Option<Inflate>, data: bytes): (r: Option<bytes>) {
    if f.None? then Some(data) else f.value(data)
  }

  class RowsEvent {
    const shape: Shape
    const filter: Option<Filter>
    const inflate: Option<Inflate>
    var eventType: byte
    var rows: seq<Row>
    var skippedColumns: seq<seq<nat>>
    var rawBytesNew: bytes
    var rowsCount: nat
    var rowsMatched: nat

    constructor (shape: Shape, filter: Option<Filter>, inflate: Option<Inflate>, eventType: byte, raw: bytes)
      ensures this.shape == shape && this.filter == filter && this.inflate == inflate
      ensures this.eventType == eventType && rawBytesNew == raw
      ensures rows == [] && skippedColumns == [] && rowsCount == 0 && rowsMatched == 0
    {
      this.shape, this.filter, this.inflate, this.eventType, rawBytesNew := shape, filter, inflate, eventType, raw;
      rows, skippedColumns, rowsCount, rowsMatched := [], [], 0, 0;
    }

    /** decodeImage: None is an error or a panic; rows are appended only when the whole image was read. */
    method DecodeImage(data: bytes, bitmap: bytes) returns (n: Option<nat>)
      requires ImageOf(data, shape.cols, bitmap, shape.codec.dec) != Hang
      modifies this`rows, this`skippedColumns
      ensures var r := ImageOf(data, shape.cols, bitmap, shape.codec.dec);
        if r.Ok? then n == Some(r.n) && rows == old(rows) + [r.value.row]
          && skippedColumns == old(skippedColumns) + [r.value.skips]
        else n == None && rows == old(rows) && skippedColumns == old(skippedColumns)
    {
      var cols := shape.cols;
      if |bitmap| < BitmapByteSize(|cols|) { return None; }
      var count := CountPresent(bitmap, |cols|);
      count := BitmapByteSize(count);
      if |data| < count { return None; }
      var image := ReadColumns(shape.cols, bitmap, data[..count], data, count, shape.codec.dec);
      if !image.Ok? { return None; }
      rows, skippedColumns := rows + [image.value.row], skippedColumns + [image.value.skips];
      n := Some(image.n);
    }

    /** What DecodeData reads: after decompression it starts again at the front of the body. */
    function RowBytes(pos: nat, body: bytes): (r: Option<bytes>)
      requires pos <= |body|
    {
      match Inflated(inflate, body[pos..])
      case None => None
      case Some(data) => Some(if inflate.None? then data else body[..pos] + data)
    }

    /** DecodeData: `pos` bytes of the body come before the row data. */
    method DecodeData(pos: nat, body: bytes) returns (ok: bool)
      requires pos <= |body| && (RowBytes(pos, body).Some? ==> Rows(RowBytes(pos, body).value, shape) != Hang)
      modifies this`rows, this`skippedColumns
      ensures ok == (RowBytes(pos, body).Some? && Rows(RowBytes(pos, body).value, shape).Ok?)
      ensures ok ==> var r := Rows(RowBytes(pos, body).value, shape);
        rows == RowsOf(r.value) && skippedColumns == SkipsOf(r.value)
    {
      if inflate.None? {
        ok := DecodeRows(body[pos..]);
      } else {
        var data := inflate.value(body[pos..]);
        if data.None? { return false; }
        ok := DecodeRows(body[..pos] + data.value);
      }
    }

    /** The row loop of DecodeData. */
    method DecodeRows(data: bytes) returns (ok: bool)
      requires Rows(data, shape) != Hang
      modifies this`rows, this`skippedColumns
      ensures ok == Rows(data, shape).Ok?
      ensures ok ==> rows == RowsOf(Rows(data, shape).value) && skippedColumns == SkipsOf(Rows(data, shape).value)
    {
      rows, skippedColumns := [], [];
      var pos := 0;
      ghost var done: seq<Image>, goal := [], Rows(data, shape);
      RowsFromStart(data, shape, goal);
      while pos < |data|
        invariant rows == RowsOf(done) && skippedColumns == SkipsOf(done) && RowsAt(data, shape, done, pos, goal)
        decreases |data| - pos
      {
        TurnReturns(data, shape, done, pos, goal);
        var n, images := DecodeTurn(data[pos..]);
        if n.None? { return false; }
        var next := pos + n.value;
        ghost var more := done + images;
        TurnTaken(data, shape, done, pos, Ok(images, n.value), more, next, goal);
        RowsOfSum(done, images);
        done := more;
        pos := next;
      }
      RowsAtEnd(data, shape, done, pos, goal);
      ok := true;
    }

    /** The body of the row loop. */
    method DecodeTurn(data: bytes) returns (n: Option<nat>, ghost images: seq<Image>)
      requires Turn(data, shape) != Hang
      modifies this`rows, this`skippedColumns
      ensures var t := Turn(data, shape);
        if t.Ok? then
          n == Some(t.n) && images == t.value && rows == old(rows) + RowsOf(images)
            && skippedColumns == old(skippedColumns) + SkipsOf(images)
        else n == None
    {
      images := [];
      var n1 := DecodeImage(data, shape.bitmap1);
      if n1.None? { return None, []; }
      ghost var first := ImageOf(data, shape.cols, shape.bitmap1, shape.codec.dec).value;
      RowsOfOne(first);
      images := [first];
      n := n1;
      if shape.needBitmap2 {
        if n1.value > |data| { return None, []; }
        var n2 := DecodeImage(data[n1.value..], shape.bitmap2);
        if n2.None? { return None, []; }
        ghost var second := ImageOf(data[n1.value..], shape.cols, shape.bitmap2, shape.codec.dec).value;
        TwoImages(first, second);
        images := [first, second];
        ConcatAssoc(old(rows), [first.row], [second.row]);
        ConcatAssoc(old(skippedColumns), [first.skips], [second.skips]);
        n := Some(n1.value + n2.value);
      }
    }

    /**
     FlashbackData2: `pos` bytes of the body come before the row data, and rawBytesNew
     holds the whole event. A failing decompression leaves the type as it was.
     */
    method FlashbackData2(pos: nat, body: bytes) returns (ok: bool)
      requires pos <= |body| && EVENT_HEADER_SIZE + pos <= |rawBytesNew|
      requires Inflated(inflate, body[pos..]).Some? ==> Pieces(Inflated(inflate, body[pos..]).value, shape) != Hang
      modifies this
      ensures eventType == if Inflated(inflate, body[pos..]).Some? then SwapType(old(eventType)) else old(eventType)
      ensures ok == (Inflated(inflate, body[pos..]).Some? && Pieces(Inflated(inflate, body[pos..]).value, shape).Ok?)
      ensures ok ==> var ps := Pieces(Inflated(inflate, body[pos..]).value, shape).value;
        && rowsCount == old(rowsCount) + |ps|
        && rowsMatched == old(rowsMatched) + (if filter.Some? then |Kept(ps, filter)| else 0)
        && rows == (if shape.needBitmap2 then RowsExchanged(Kept(ps, filter), filter)
                    else RowsRead(Kept(ps, filter), filter, false))
        && rawBytesNew == if filter.Some? && rowsMatched == 0
                          then old(Head(rawBytesNew, pos, eventType))[..EVENT_HEADER_SIZE]
                          else old(Head(rawBytesNew, pos, eventType)) + Swapped(Kept(ps, filter))
    {
      ghost var head := Head(rawBytesNew, pos, eventType);
      rawBytesNew := rawBytesNew[..EVENT_HEADER_SIZE + pos];
      var data := Inflated(inflate, body[pos..]);
      if data.None? { return false; }
      ok := RewriteBody(data.value, head, pos);
    }

    /** The rest of FlashbackData2, with the row data at hand. */
    method RewriteBody(data: bytes, ghost head: bytes, ghost pos: nat) returns (ok: bool)
      requires |rawBytesNew| == EVENT_HEADER_SIZE + pos && head == Head(rawBytesNew, pos, eventType)
        && Pieces(data, shape) != Hang
      modifies this
      ensures eventType == SwapType(old(eventType)) && ok == Pieces(data, shape).Ok?
      ensures ok ==> var ps := Pieces(data, shape).value;
        && rowsCount == old(rowsCount) + |ps|
        && rowsMatched == old(rowsMatched) + (if filter.Some? then |Kept(ps, filter)| else 0)
        && rows == (if shape.needBitmap2 then RowsExchanged(Kept(ps, filter), filter)
                    else RowsRead(Kept(ps, filter), filter, false))
        && rawBytesNew == if filter.Some? && rowsMatched == 0 then head[..EVENT_HEADER_SIZE]
                          else head + Swapped(Kept(ps, filter))
    {
      rows, skippedColumns := [], [];
      if SwapType(eventType) != eventType {
        rawBytesNew := rawBytesNew[EVENT_TYPE_POS := SwapType(eventType)];
        eventType := SwapType(eventType);
      }
      ghost var ps;
      ok, ps := RewriteRows(data, head);
      if ok { Conclude(Kept(ps, filter), head); }
    }

    /** What follows the row loop: an event without a match is cut, the rows of updates are exchanged. */
    method Conclude(ghost ks: seq<Piece>, ghost head: bytes)
      requires |head| >= EVENT_HEADER_SIZE && rawBytesNew == head + Swapped(ks)
        && rows == RowsRead(ks, filter, shape.needBitmap2)
      modifies this`rows, this`rawBytesNew
      ensures rows == if shape.needBitmap2 then RowsExchanged(ks, filter) else RowsRead(ks, filter, false)
      ensures rawBytesNew == if filter.Some? && rowsMatched == 0 then head[..EVENT_HEADER_SIZE] else head + Swapped(ks)
    {
      if filter.Some? && rowsMatched == 0 { rawBytesNew := rawBytesNew[..EVENT_HEADER_SIZE]; }
      if shape.needBitmap2 {
        SwapPairsExchange(ks, filter);
        rows := SwapRows(rows);
      }
    }

    /** The row loop of FlashbackData2. */
    method RewriteRows(data: bytes, ghost head: bytes) returns (ok: bool, ghost ps: seq<Piece>)
      requires Pieces(data, shape) != Hang && rawBytesNew == head && rows == []
      modifies this`rows, this`skippedColumns, this`rawBytesNew, this`rowsCount, this`rowsMatched
      ensures ok == Pieces(data, shape).Ok?
      ensures ok ==>
        && ps == Pieces(data, shape).value && rawBytesNew == head + Swapped(Kept(ps, filter))
        && rows == RowsRead(Kept(ps, filter), filter, shape.needBitmap2) && rowsCount == old(rowsCount) + |ps|
        && rowsMatched == old(rowsMatched) + if filter.Some? then |Kept(ps, filter)| else 0
    {
      ps := [];
      var pos := 0;
      ghost var goal := Pieces(data, shape);
      PiecesFromStart(data, shape, goal);
      ConcatEmpty(head);
      while pos < |data|
        invariant PiecesAt(data, shape, ps, pos, goal)
        invariant Progress(filter, shape.needBitmap2, head, ps, rawBytesNew, rows)
        invariant Counts(filter, ps, rowsCount - old(rowsCount), rowsMatched - old(rowsMatched))
      {
        ghost var raw, read := rawBytesNew, rows;
        PieceNext(data, shape, ps, pos, goal);
        var n, p := FlashbackTurn(data[pos..]);
        if n.None? { return false, []; }
        ProgressMade(filter, shape.needBitmap2, head, ps, p, raw, read, rawBytesNew, rows);
        ps := ps + [p];
        pos := pos + n.value;
      }
      PiecesAtEnd(data, shape, ps, pos, goal);
      ok := true;
    }

    /** One row: its second image is written before its first. */
    method FlashbackTurn(data: bytes) returns (n: Option<nat>, ghost p: Piece)
      requires Cut(data, shape) != Hang
      modifies this`rows, this`skippedColumns, this`rawBytesNew, this`rowsCount, this`rowsMatched
      ensures n == if Cut(data, shape).Ok? then Some(Cut(data, shape).n) else None
      ensures n.Some? ==>
        && p == Cut(data, shape).value && rowsCount == old(rowsCount) + 1
        && rowsMatched == old(rowsMatched) + (if filter.Some? && Keeps(filter, p) then 1 else 0)
        && rawBytesNew == old(rawBytesNew) + (if Keeps(filter, p) then p.raw2 + p.raw1 else [])
        && rows == old(rows) + if Keeps(filter, p) then RowsRead([p], filter, shape.needBitmap2) else []
    {
      p := Piece(NO_IMAGE, [], NO_IMAGE, []);
      var n1 := DecodeImage(data, shape.bitmap1);
      if n1.None? || n1.value > |data| { return None, p; }
      var image1 := data[..n1.value];
      ghost var first := ImageOf(data, shape.cols, shape.bitmap1, shape.codec.dec).value;
      ghost var seen := Seen(filter, first.row);
      var matched := FilterLast(old(rows), first.row);
      rowsCount := rowsCount + 1;
      n := n1;
      p := Piece(first, image1, NO_IMAGE, []);
      var keep := filter.None? || matched;
      LastOfAppend(old(rows), seen, seen);
      if shape.needBitmap2 {
        var n2 := DecodeImage(data[n1.value..], shape.bitmap2);
        if n2.None? || n1.value + n2.value > |data| { return None, p; }
        var image2 := data[n1.value..n1.value + n2.value];
        ghost var second := ImageOf(data[n1.value..], shape.cols, shape.bitmap2, shape.codec.dec).value;
        p := Piece(first, image1, second, image2);
        LastOfAppend(old(rows) + [seen], second.row, second.row);
        if keep {
          rawBytesNew := rawBytesNew + image2;
        } else {
          rows := rows[..|rows| - 1];
        }
        n := Some(n1.value + n2.value);
      }
      RowsReadOne(p, filter, old(rows), old(rawBytesNew));
      if keep {
        rawBytesNew := rawBytesNew + image1;
      } else {
        rows := rows[..|rows| - 1];
      }
    }

    /** The filter at work: the last row is converted in place and tested. */
    method FilterLast(ghost earlier: seq<Row>, ghost row: Row) returns (matched: bool)
      requires rows == earlier + [row]
      modifies this`rows, this`rowsMatched
      ensures rows == earlier + [Seen(filter, row)]
      ensures matched == (filter.Some? && filter.value.matches(filter.value.convert(row)))
      ensures rowsMatched == old(rowsMatched) + if matched then 1 else 0
    {
      matched := false;
      if filter.Some? {
        var last := |rows| - 1;
        var seen := filter.value.convert(rows[last]);
        LastOfAppend(earlier, row, seen);
        rows := rows[last := seen];
        if filter.value.matches(seen) {
          matched := true;
          rowsMatched := rowsMatched + 1;
        }
      }
    }
  }

  /** The loop that exchanges the rows of each update. */
  method SwapRows(rows: seq<Row>) returns (r: seq<Row>)
    requires |rows| % 2 == 0
    ensures r == SwapPairs(rows)
  {
    r := rows;
    var i := 0;
    assert rows[0..] == rows && rows[..0] + SwapPairs(rows) == SwapPairs(rows);
    while i < |r|
      invariant i <= |r| == |rows| && i % 2 == 0 && SwappedTo(rows, r, i)
    {
      SwapStep(r, i);
      r := r[i := r[i + 1]][i + 1 := r[i]];
      i := i + 2;
    }
    assert r[..|r|] == r && r[|r|..] == [];
    ConcatEmpty(r);
  }

  ghost predicate SwappedTo(rows: seq<Row>, r: seq<Row>, i: nat) {
    i <= |r| && r[..i] + SwapPairs(r[i..]) == SwapPairs(rows)
  }

  lemma TwoImages(first: Image, second: Image)
    ensures RowsOf([first, second]) == [first.row] + [second.row]
      && SkipsOf([first, second]) == [first.skips] + [second.skips]
  {
    assert [first, second] == [first] + [second];
    RowsOfSum([first], [second]);
    RowsOfOne(first);
    RowsOfOne(second);
  }

  /** The row loop has read `done` and stands at `pos`. */
  ghost predicate RowsAt(data: bytes, s: Shape, done: seq<Image>, pos: nat, goal: Read<seq<Image>>) {
    goal == if pos <= |data| then Before(done, pos, Rows(data[pos..], s)) else Ok(done, pos)
  }

  lemma RowsFromStart(data: bytes, s: Shape, goal: Read<seq<Image>>)
    requires goal == Rows(data, s)
    ensures RowsAt(data, s, [], 0, goal)
  {
    assert data[0..] == data;
    BeforeNothing([], 0, goal);
  }

  lemma RowsAtEnd(data: bytes, s: Shape, done: seq<Image>, pos: nat, goal: Read<seq<Image>>)
    requires RowsAt(data, s, done, pos, goal) && pos >= |data|
    ensures goal == Ok(done, pos)
  {
    if pos == |data| {
      assert data[pos..] == [];
      BeforeNothing(done, pos, Rows([], s));
    }
  }

  lemma TurnReturns(data: bytes, s: Shape, done: seq<Image>, pos: nat, goal: Read<seq<Image>>)
    requires pos < |data| && RowsAt(data, s, done, pos, goal) && goal != Hang
    ensures Turn(data[pos..], s) != Hang && (Turn(data[pos..], s) == Fault ==> goal == Fault)
  {
  }

  lemma TurnTaken(data: bytes, s: Shape, done: seq<Image>, pos: nat, t: Read<seq<Image>>, more: seq<Image>, next: nat,
                  goal: Read<seq<Image>>)
    requires pos < |data| && RowsAt(data, s, done, pos, goal) && goal != Hang
    requires t.Ok? && Turn(data[pos..], s) == t && more == done + t.value && next == pos + t.n
    ensures next > pos && RowsAt(data, s, more, next, goal)
  {
    if next <= |data| {
      TailOfTail(data, pos, next);
      BeforeStep(done, pos, t.value, t.n, Rows(data[next..], s));
    }
  }

  lemma SwapStep(rows: seq<Row>, i: nat)
    requires i + 1 < |rows|
    ensures var r := rows[i := rows[i + 1]][i + 1 := rows[i]];
      r[..i + 2] + SwapPairs(r[i + 2..]) == rows[..i] + SwapPairs(rows[i..])
  {
    var r := rows[i := rows[i + 1]][i + 1 := rows[i]];
    assert r[i + 2..] == rows[i + 2..] && r[..i + 2] == rows[..i] + [rows[i + 1], rows[i]];
    assert rows[i..][2..] == rows[i + 2..] && rows[i..][0] == rows[i] && rows[i..][1] == rows[i + 1];
    ConcatAssoc(rows[..i], [rows[i + 1], rows[i]], SwapPairs(rows[i + 2..]));
  }

  /** The event header and body header, with the opposite type. */
  function Head(raw: bytes, pos: nat, eventType: byte): (h: bytes)
    requires EVENT_HEADER_SIZE + pos <= |raw|
    ensures |h| == EVENT_HEADER_SIZE + pos
  {
    var h := raw[..EVENT_HEADER_SIZE + pos];
    if SwapType(eventType) == eventType then h else h[EVENT_TYPE_POS := SwapType(eventType)]
  }

  /** The rows as they are left: after and before image of each row kept, as the filter sees them. */
  function RowsExchanged(ps: seq<Piece>, f: Option<Filter>): (rows: seq<Row>) {
    if ps == [] then [] else [ps[0].second.row, Seen(f, ps[0].first.row)] + RowsExchanged(ps[1..], f)
  }

  lemma {:induction false} SwapPairsExchange(ps: seq<Piece>, f: Option<Filter>)
    ensures |RowsRead(ps, f, true)| % 2 == 0 && SwapPairs(RowsRead(ps, f, true)) == RowsExchanged(ps, f)
  {
    if ps != [] {
      SwapPairsExchange(ps[1..], f);
      var rows := RowsRead(ps, f, true);
      assert rows[2..] == RowsRead(ps[1..], f, true);
    }
  }

  /** The row loop has taken `ps` and stands at `pos`. */
  ghost predicate PiecesAt(data: bytes, s: Shape, ps: seq<Piece>, pos: nat, goal: Read<seq<Piece>>) {
    pos <= |data| && goal == AfterPieces(ps, Pieces(data[pos..], s))
  }

  lemma PiecesFromStart(data: bytes, s: Shape, goal: Read<seq<Piece>>)
    requires goal == Pieces(data, s)
    ensures PiecesAt(data, s, [], 0, goal)
  {
    assert data[0..] == data;
    AfterNoPieces([], goal);
  }

  lemma PiecesAtEnd(data: bytes, s: Shape, ps: seq<Piece>, pos: nat, goal: Read<seq<Piece>>)
    requires PiecesAt(data, s, ps, pos, goal) && pos == |data|
    ensures goal == Ok(ps, 0)
  {
    assert data[pos..] == [];
    AfterNoPieces(ps, Pieces([], s));
  }

  lemma PieceNext(data: bytes, s: Shape, ps: seq<Piece>, pos: nat, goal: Read<seq<Piece>>)
    requires pos < |data| && PiecesAt(data, s, ps, pos, goal) && goal != Hang
    ensures var c := Cut(data[pos..], s);
      c != Hang && (c == Fault ==> goal == Fault)
        && (c.Ok? ==> c.n > 0 && PiecesAt(data, s, ps + [c.value], pos + c.n, goal))
  {
    var c := Cut(data[pos..], s);
    if c.Ok? {
      TailOfTail(data, pos, pos + c.n);
      AfterPiece(ps, c.value, Pieces(data[pos + c.n..], s));
    }
  }

  /** What the row loop has written and read once it has taken `ps`. */
  ghost predicate Progress(f: Option<Filter>, two: bool, head: bytes, ps: seq<Piece>, raw: bytes, rows: seq<Row>) {
    raw == head + Swapped(Kept(ps, f)) && rows == RowsRead(Kept(ps, f), f, two)
  }

  /** The rows counted and matched by then. */
  ghost predicate Counts(f: Option<Filter>, ps: seq<Piece>, count: int, matched: int) {
    count == |ps| && matched == if f.Some? then |Kept(ps, f)| else 0
  }

  lemma ProgressMade(f: Option<Filter>, two: bool, head: bytes, ps: seq<Piece>, p: Piece,
                     raw: bytes, rows: seq<Row>, raw': bytes, rows': seq<Row>)
    requires Progress(f, two, head, ps, raw, rows)
    requires raw' == raw + if Keeps(f, p) then p.raw2 + p.raw1 else []
    requires rows' == rows + if Keeps(f, p) then RowsRead([p], f, two) else []
    ensures Progress(f, two, head, ps + [p], raw', rows')
    ensures forall count, matched :: Counts(f, ps, count, matched) ==>
      Counts(f, ps + [p], count + 1, matched + if f.Some? && Keeps(f, p) then 1 else 0)
  {
    KeptSum(ps, [p], f);
    KeptOne(p, f);
    var kept, one := Kept(ps, f), if Keeps(f, p) then [p] else [];
    SwappedSum(kept, one);
    SwappedOne(p);
    RowsReadSum(kept, one, f, two);
    ConcatAssoc(head, Swapped(kept), Swapped(one));
  }

  lemma RowsReadOne(p: Piece, f: Option<Filter>, rows: seq<Row>, raw: bytes)
    ensures rows + RowsRead([p], f, false) == rows + [Seen(f, p.first.row)]
    ensures rows + RowsRead([p], f, true) == rows + [Seen(f, p.first.row)] + [p.second.row]
    ensures raw + (p.raw2 + p.raw1) == raw + p.raw2 + p.raw1 && raw + [] + p.raw1 == raw + p.raw1
    ensures rows + [] == rows && raw + [] == raw
  {
    assert [p][1..] == [];
  }

  lemma KeptOne(p: Piece, f: Option<Filter>)
    ensures Kept([p], f) == if Keeps(f, p) then [p] else []
  {
    assert [p][1..] == [];
  }

  lemma SwappedOne(p: Piece)
    ensures Swapped([p]) == p.raw2 + p.raw1
  {
    assert [p][1..] == [];
  }

  // ----- finishing the event: parseEventRewrite -----

  /**
   BytesReplaceWithIndex on a slice of `len` bytes over the array `a`, and whether it
   returns: two appends that write in place as long as the array has room. A second
   append that has no room writes elsewhere; a buffer too short for the range panics.
   */
  function Replaced(a: bytes, len: nat, from: nat, to: nat, newBuf: bytes): (r: (bytes, bool))
    requires len <= |a|
    ensures |r.0| == |a|
  {
    var k := from + |newBuf|;
    if from == to && |newBuf| == 1 then if from < len then (a[from := newBuf[0]], true) else (a, false)
    else if from > |a| then (a, false)
    else if k > |a| then (a, to <= k)
    else
      var b := a[..from] + newBuf + a[k..];
      if to > k then (b, false)
      else if k + (k - to) > |a| then (b, true)
      else (b[..k] + b[to..k] + b[k + (k - to)..], true)
  }

  method BytesReplaceWithIndex(dst: array<byte>, len: nat, from: nat, to: nat, newBuf: bytes) returns (ok: bool)
    requires len <= dst.Length
    modifies dst
    ensures (dst[..], ok) == Replaced(old(dst[..]), len, from, to, newBuf)
  {
    if from == to && |newBuf| == 1 {
      if from >= len { return false; }
      dst[from] := newBuf[0];
      return true;
    }
    if from > dst.Length { return false; }
    var k := from + |newBuf|;
    if k > dst.Length { return to <= k; }
    CopyInto(dst, from, newBuf);
    if to > k { return false; }
    if k + (k - to) <= dst.Length { CopyInto(dst, k, dst[to..k]); }
    ok := true;
  }

  /** The copying of append. */
  method CopyInto(dst: array<byte>, at: nat, buf: bytes)
    requires at + |buf| <= dst.Length
    modifies dst
    ensures dst[..] == old(dst[..at]) + buf + old(dst[at + |buf|..])
  {
    var i := 0;
    while i < |buf|
      invariant i <= |buf|
      invariant dst[..at] == old(dst[..at]) && dst[at + |buf|..] == old(dst[at + |buf|..])
      invariant forall k :: 0 <= k < i ==> dst[at + k] == buf[k]
    {
      dst[at + i] := buf[i];
      i := i + 1;
    }
    assert dst[at..at + |buf|] == buf;
    assert dst[..] == dst[..at] + dst[at..at + |buf|] + dst[at + |buf|..];
  }

  /** A buffer as long as the range replaces exactly the range. */
  lemma SameLengthReplaces(a: bytes, len: nat, from: nat, newBuf: bytes)
    requires from + |newBuf| <= len <= |a| && |newBuf| != 0
    ensures Replaced(a, len, from, from + |newBuf|, newBuf) == (a[..from] + newBuf + a[from + |newBuf|..], true)
  {
    var k := from + |newBuf|;
    var b := a[..from] + newBuf + a[k..];
    assert b[..k] + b[k..k] + b[k..] == b;
  }

  /** The event in its last form: time stamp, size and checksum in place. */
  function Finished(raw: bytes, stamp: Option<nat>, checksum: bytes): (event: bytes)
    requires EVENT_HEADER_SIZE < |raw|
    ensures |event| == |raw| + |checksum|
  {
    (if stamp.Some? then LE(4, stamp.value) else raw[..4]) + raw[4..EVENT_SIZE_POS] + LE(4, |raw| + |checksum|)
    + raw[EVENT_SIZE_POS + 4..] + checksum
  }

  /** The rows branch of parseEventRewrite after FlashbackData2: time stamp, checksum, size. */
  method FinishEvent(raw: bytes, stamp: Option<nat>, checksum: bytes) returns (event: bytes)
    requires EVENT_HEADER_SIZE < |raw|
    ensures event == Finished(raw, stamp, checksum)
  {
    var stamped := if stamp.Some? then LE(4, stamp.value) + raw[4..] else raw;
    var whole := stamped + checksum;
    var a := new byte[|whole|](i requires 0 <= i < |whole| => whole[i]);
    assert a[..] == whole;
    SameLengthReplaces(whole, |whole|, EVENT_SIZE_POS, LE(4, |whole|));
    var ok := BytesReplaceWithIndex(a, a.Length, EVENT_SIZE_POS, EVENT_SIZE_POS + 4, LE(4, |whole|));
    event := a[..];
    SizePatched(raw, stamp, checksum, stamped, whole, event);
  }

  lemma SizePatched(raw: bytes, stamp: Option<nat>, checksum: bytes, stamped: bytes, whole: bytes, event: bytes)
    requires EVENT_HEADER_SIZE < |raw| && whole == stamped + checksum
    requires stamped == if stamp.Some? then LE(4, stamp.value) + raw[4..] else raw
    requires event == whole[..9] + LE(4, |whole|) + whole[13..]
    ensures event == Finished(raw, stamp, checksum)
  {
    var size := LE(4, |whole|);
    assert |size| == 4 && |stamped| == |raw|;
    assert stamped[4..] == raw[4..];
    Patched(stamped, checksum, size, event);
    SliceOfTail(stamped, 4, 9);
    SliceOfTail(raw, 4, 9);
    assert stamped[13..] == stamped[4..][9..] == raw[13..];
    FourParts(event);
    ConcatAssoc(event[..4] + event[4..9] + event[9..13], raw[13..], checksum);
  }

  lemma FourParts(event: bytes)
    requires |event| >= 13
    ensures event == event[..4] + event[4..9] + event[9..13] + event[13..]
  {
  }

  /**
   What a reader of the finished event finds: its true length, the body and header left alone,
   the rows in their place.
   */
  lemma FinishedReads(raw: bytes, stamp: Option<nat>, checksum: bytes, at: nat)
    requires EVENT_HEADER_SIZE < |raw| && EVENT_HEADER_SIZE <= at <= |raw|
    ensures var event := Finished(raw, stamp, checksum);
      && event[EVENT_SIZE_POS..EVENT_SIZE_POS + 4] == LE(4, |event|)
      && (|event| < Pow256(4) ==> FromLE(event[EVENT_SIZE_POS..EVENT_SIZE_POS + 4]) == |event|)
      && event[4..EVENT_SIZE_POS] == raw[4..EVENT_SIZE_POS]
        && event[..4] == (if stamp.Some? then LE(4, stamp.value) else raw[..4])
      && event[at..|raw|] == raw[at..] && event[|raw|..] == checksum
  {
    var event := Finished(raw, stamp, checksum);
    LittleEndianRoundTrip(4, |event|);
    FinishedParts(if stamp.Some? then LE(4, stamp.value) else raw[..4], raw[4..9], LE(4, |event|), raw[13..], checksum,
                  event);
    SliceOfTail(event, 13, |raw|);
    assert event[at..|raw|] == event[13..|raw|][at - 13..] && raw[at..] == raw[13..][at - 13..];
  }

  lemma FinishedParts(a: bytes, b: bytes, c: bytes, d: bytes, e: bytes, s: bytes)
    requires |a| == 4 && |b| == 5 && |c| == 4 && s == a + b + c + d + e
    ensures s[..4] == a && s[4..9] == b && s[9..13] == c && s[13..13 + |d|] == d && s[13 + |d|..] == e
  {
  }

  lemma Patched(stamped: bytes, checksum: bytes, size: bytes, event: bytes)
    requires |stamped| >= 13 && |size| == 4
    requires event == (stamped + checksum)[..9] + size + (stamped + checksum)[13..]
    ensures |event| == |stamped| + |checksum| && event[9..13] == size && event[..4] == stamped[..4]
    ensures event[4..9] == stamped[4..9] && event[13..] == stamped[13..] + checksum
  {
  }

  /** What is read of a body: its row data, or after a decompression its header and the rows. */
  lemma BytesRead(e: RowsEvent, pos: nat, body: bytes, rows: bytes)
    requires pos <= |body|
    ensures e.inflate == None ==> e.RowBytes(pos, body) == Some(body[pos..])
    ensures e.inflate.Some? && e.inflate.value(body[pos..]) == Some(rows) ==>
      e.RowBytes(pos, body) == Some(body[..pos] + rows)
    ensures e.inflate.Some? && e.inflate.value(body[pos..]) == None ==> e.RowBytes(pos, body) == None
  {
  }
}
