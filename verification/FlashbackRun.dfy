/**
 The flashback pipeline end to end: a stream of row events is rewritten event
 by event, one write each, and the writer's merged file holds the rewritten
 events from the last to the first. Read as changes to the tables, that file
 undoes the stream.
 */
module FlashbackRun {
  import opened Bytes
  import FilteredUndo
  import opened FlashbackFiles
  import opened FlashbackRewrite
  import opened Lists
  import opened RowImage
  import RowsEvents
  import RowsHeader
  import opened RowValue
  import opened UndoRun

  /** A row of some table. */
  datatype Located = Located(table: nat, row: Row)

  /** A rows event: the table and image shape its headers tell, its type and its row data. */
  datatype RawEvent = RawEvent(table: nat, shape: Shape, eventType: byte, data: bytes)

  // ----- what an event does to the tables -----

  function ImagesOf(ps: seq<Piece>, two: bool): (images: seq<Image>) {
    if ps == [] then [] else [ps[0].first] + (if two then [ps[0].second] else []) + ImagesOf(ps[1..], two)
  }

  function RowsIn(table: nat, images: seq<Image>): (rows: seq<Located>) {
    if images == [] then [] else [Located(table, images[0].row)] + RowsIn(table, images[1..])
  }

  function ChangesIn(table: nat, images: seq<Image>): (cs: seq<Replace<Located>>) {
    if |images| < 2 then []
    else [Replace(Located(table, images[0].row), Located(table, images[1].row))] + ChangesIn(table, images[2..])
  }

  function Meaning(eventType: byte, table: nat, images: seq<Image>): (e: UndoRun.Event<Located>) {
    match KindOf(eventType)
    case Insert => UndoRun.Insert(RowsIn(table, images))
    case Delete => UndoRun.Delete(RowsIn(table, images))
    case _ => UndoRun.Update(ChangesIn(table, images))
  }

  /** An event the rewriting handles: it can be read, updates carry full row images, and it is not of version 0. */
  ghost predicate Rewritable(ev: RawEvent) {
    && Pieces(ev.data, ev.shape).Ok?
    && KindOf(ev.eventType) != Other && ev.eventType != 20 && ev.eventType != 22
    && ev.shape.needBitmap2 == (KindOf(ev.eventType) == FlashbackRewrite.Update)
    && (ev.shape.needBitmap2 ==> SameColumns(ev.shape))
  }

  ghost predicate Good(ev: RawEvent) { Rewritable(ev) && Local(ev.shape.codec.dec) }

  /** Events whose values are read by decodeValue need nothing more. */
  lemma GoodWithValues(ev: RawEvent, ignore: bool)
    requires ev.shape.codec == ValueCodec(ignore) && Rewritable(ev)
    ensures Good(ev)
  {
    ValueCodecIsFaithful(ignore);
  }

  /** The images the reader of an event sees. */
  ghost function MeaningOf(ev: RawEvent): (e: UndoRun.Event<Located>)
    requires Rows(ev.data, ev.shape).Ok?
  {
    Meaning(ev.eventType, ev.table, Rows(ev.data, ev.shape).value)
  }

  // ----- what a server wrote -----

  /** The rows of inserts and deletes, as their images show them. */
  function RowsWritten(table: nat, cs: seq<Change>, s: Shape): (rows: seq<Located>) {
    if cs == [] then [] else [Located(table, ShownImage(s.bitmap1, cs[0].first).row)] + RowsWritten(table, cs[1..], s)
  }

  /** The updates: the image before, then the image after. */
  function UpdatesWritten(table: nat, cs: seq<Change>, s: Shape): (us: seq<Replace<Located>>) {
    if cs == [] then []
    else
      var before, after := ShownImage(s.bitmap1, cs[0].first).row, ShownImage(s.bitmap2, cs[0].second).row;
      [Replace(Located(table, before), Located(table, after))] + UpdatesWritten(table, cs[1..], s)
  }

  lemma {:induction false} RowsShown(table: nat, cs: seq<Change>, s: Shape)
    requires !s.needBitmap2
    ensures RowsIn(table, ShownChanges(cs, s)) == RowsWritten(table, cs, s)
  {
    if cs != [] {
      RowsShown(table, cs[1..], s);
      var first := ShownImage(s.bitmap1, cs[0].first);
      ConcatEmpty([first]);
      assert ShownChanges(cs, s) == [first] + ShownChanges(cs[1..], s);
      assert ShownChanges(cs, s)[1..] == ShownChanges(cs[1..], s);
    }
  }

  lemma {:induction false} UpdatesShown(table: nat, cs: seq<Change>, s: Shape)
    requires s.needBitmap2
    ensures ChangesIn(table, ShownChanges(cs, s)) == UpdatesWritten(table, cs, s)
  {
    if cs != [] {
      UpdatesShown(table, cs[1..], s);
      TwoImages(table, ShownImage(s.bitmap1, cs[0].first), ShownImage(s.bitmap2, cs[0].second),
                ShownChanges(cs[1..], s), ShownChanges(cs, s));
    }
  }

  /**
   What events mean that a server wrote: types 23 and 30 insert the rows, 25 and 32 delete them,
   24 and 31 replace the first image of each pair by the second.
   */
  lemma WrittenMeaning(ev: RawEvent, cs: seq<Change>)
    requires Covers(ev.shape) && AllFit(cs, ev.shape) && ev.data == EncodeChanges(cs, ev.shape)
    requires ev.eventType in {23, 24, 25, 30, 31, 32} && ev.shape.needBitmap2 == (ev.eventType in {24, 31})
    ensures Rows(ev.data, ev.shape).Ok?
    ensures ev.eventType in {23, 30} ==> MeaningOf(ev) == UndoRun.Insert(RowsWritten(ev.table, cs, ev.shape))
    ensures ev.eventType in {25, 32} ==> MeaningOf(ev) == UndoRun.Delete(RowsWritten(ev.table, cs, ev.shape))
    ensures ev.eventType in {24, 31} ==> MeaningOf(ev) == UndoRun.Update(UpdatesWritten(ev.table, cs, ev.shape))
  {
    RowsRoundTrip(cs, ev.shape, ev.data);
    if ev.shape.needBitmap2 { UpdatesShown(ev.table, cs, ev.shape); } else { RowsShown(ev.table, cs, ev.shape); }
  }

  function Rewrite(ev: RawEvent): (r: RawEvent)
    requires Pieces(ev.data, ev.shape).Ok?
  {
    ev.(eventType := SwapType(ev.eventType), data := Rewritten(ev.data, ev.shape))
  }

  lemma TurnOfCut(data: bytes, s: Shape)
    requires Cut(data, s).Ok?
    ensures var c := Cut(data, s);
      Turn(data, s) == Ok([c.value.first] + (if s.needBitmap2 then [c.value.second] else []), c.n)
  {
    var c := Cut(data, s);
    if s.needBitmap2 {
      assert [c.value.first] + [c.value.second] == [c.value.first, c.value.second];
    } else {
      ConcatEmpty([c.value.first]);
    }
  }

  /** Wherever the rewriting can cut the rows, the reader reads the same images. */
  lemma {:induction false} PiecesAreRows(data: bytes, s: Shape)
    requires Pieces(data, s).Ok?
    ensures Rows(data, s) == Ok(ImagesOf(Pieces(data, s).value, s.needBitmap2), |data|)
    decreases |data|
  {
    if data != [] {
      var c := Cut(data, s);
      PiecesAreRows(data[c.n..], s);
      TurnOfCut(data, s);
      RowsStep(data, s, Turn(data, s).value, c.n);
      assert Pieces(data, s).value[1..] == Pieces(data[c.n..], s).value;
    }
  }

  lemma {:induction false} ExchangedMeaning(table: nat, ps: seq<Piece>)
    ensures ChangesIn(table, ImagesOf(ExchangeAll(ps), true)) == Exchanged(ChangesIn(table, ImagesOf(ps, true)))
  {
    if ps != [] {
      ExchangedMeaning(table, ps[1..]);
      TwoImages(table, ps[0].first, ps[0].second, ImagesOf(ps[1..], true), ImagesOf(ps, true));
      var qs := ExchangeAll(ps);
      assert qs[1..] == ExchangeAll(ps[1..]);
      TwoImages(table, ps[0].second, ps[0].first, ImagesOf(qs[1..], true), ImagesOf(qs, true));
    }
  }

  lemma TwoImages(table: nat, first: Image, second: Image, rest: seq<Image>, images: seq<Image>)
    requires images == [first] + [second] + rest
    ensures ChangesIn(table, images)
      == [Replace(Located(table, first.row), Located(table, second.row))] + ChangesIn(table, rest)
  {
    assert images[2..] == rest;
  }

  /** The rewritten bytes are read as the opposite event: this is what the rewriting is for. */
  lemma RewriteMeansFlashback(ev: RawEvent)
    requires Good(ev)
    ensures Rows(ev.data, ev.shape).Ok? && Rows(Rewrite(ev).data, ev.shape).Ok?
    ensures MeaningOf(Rewrite(ev)) == Flashback(MeaningOf(ev))
  {
    PiecesAreRows(ev.data, ev.shape);
    SwapsKind(ev.eventType);
    if ev.shape.needBitmap2 {
      PiecesExchanged(ev.data, ev.shape);
      PiecesAreRows(Rewritten(ev.data, ev.shape), ev.shape);
      ExchangedMeaning(ev.table, Pieces(ev.data, ev.shape).value);
    } else {
      SwappedTwice(ev.data, ev.shape);
    }
  }

  // ----- a stream of events -----

  ghost predicate AllGood(evs: seq<RawEvent>) {
    forall i :: 0 <= i < |evs| ==> Good(evs[i])
  }

  ghost predicate AllRead(evs: seq<RawEvent>) {
    forall i :: 0 <= i < |evs| ==> Rows(evs[i].data, evs[i].shape).Ok?
  }

  ghost function Meanings(evs: seq<RawEvent>): (es: seq<UndoRun.Event<Located>>)
    requires AllRead(evs)
    ensures |es| == |evs|
  {
    seq(|evs|, i requires 0 <= i < |evs| => MeaningOf(evs[i]))
  }

  function RewriteAll(evs: seq<RawEvent>): (rs: seq<RawEvent>)
    requires AllGood(evs)
    ensures |rs| == |evs|
  {
    seq(|evs|, i requires 0 <= i < |evs| => Rewrite(evs[i]))
  }

  lemma RewrittenAreRead(evs: seq<RawEvent>)
    requires AllGood(evs)
    ensures AllRead(evs) && AllRead(RewriteAll(evs))
    ensures var es := Meanings(evs);
      Meanings(RewriteAll(evs)) == seq(|es|, i requires 0 <= i < |es| => Flashback(es[i]))
  {
    forall i | 0 <= i < |evs|
      ensures Rows(evs[i].data, evs[i].shape).Ok? && Rows(Rewrite(evs[i]).data, evs[i].shape).Ok?
      ensures MeaningOf(Rewrite(evs[i])) == Flashback(MeaningOf(evs[i]))
    {
      RewriteMeansFlashback(evs[i]);
    }
  }

  lemma ReversedAreRead(evs: seq<RawEvent>)
    requires AllRead(evs)
    ensures AllRead(Reversed(evs)) && Meanings(Reversed(evs)) == Reversed(Meanings(evs))
  {
    assert Meanings(Reversed(evs)) == Reversed(Meanings(evs));
  }

  lemma GoodAreRead(evs: seq<RawEvent>)
    requires AllGood(evs)
    ensures AllRead(evs) && AllRead(Reversed(RewriteAll(evs)))
    ensures Meanings(Reversed(RewriteAll(evs))) == Undo(Meanings(evs))
  {
    RewrittenAreRead(evs);
    ReversedAreRead(RewriteAll(evs));
    UndoIsReversed(Meanings(evs));
  }

  /**
   Undo of a whole run, on the bytes: if the events of a stream take db to some
   state, the rewritten events from the last to the first take it back exactly
   when every event is restorable where it was applied.
   */
  lemma StreamUndone(db: Db<Located>, evs: seq<RawEvent>)
    requires AllGood(evs)
    ensures AllRead(evs) && AllRead(Reversed(RewriteAll(evs)))
    ensures ApplyAll(db, Meanings(evs)).Some? ==>
      ApplyAll(ApplyAll(db, Meanings(evs)).value, Meanings(Reversed(RewriteAll(evs))))
      == if RunRestorable(db, Meanings(evs)) then Some(db) else None
  {
    GoodAreRead(evs);
    if ApplyAll(db, Meanings(evs)).Some? { UndoWholeRun(db, Meanings(evs)); }
  }

  // ----- the file -----

  /** What the event loop writes: a rows event with its header and body header, or the lines for any other event. */
  datatype Entry = RowsEntry(ev: RawEvent, prefix: bytes) | TextEntry(block: bytes)

  ghost predicate EntryGood(e: Entry) { e.RowsEntry? ==> Good(e.ev) && |e.prefix| > EVENT_HEADER_SIZE }

  ghost predicate EntriesGood(es: seq<Entry>) { forall i :: 0 <= i < |es| ==> EntryGood(es[i]) }

  /**
   The time stamp to set, the checksum, the row filter, how a rewritten event is printed
   and what is noted of one without a match: all left open.
   */
  datatype Output = Output(stamp: Option<nat>, crc: bytes -> bytes, filter: Option<Filter>,
                           show: (RawEvent, bytes) -> bytes, note: RawEvent -> bytes)

  /** The event with the rows that match, and no others. */
  function Restrict(ev: RawEvent, f: Option<Filter>): (r: RawEvent)
    requires Pieces(ev.data, ev.shape).Ok?
  {
    ev.(data := Joined(Kept(Pieces(ev.data, ev.shape).value, f)))
  }

  lemma RestrictIsGood(ev: RawEvent, f: Option<Filter>)
    requires Good(ev)
    ensures Good(Restrict(ev, f))
    ensures Pieces(Restrict(ev, f).data, ev.shape) == Ok(Kept(Pieces(ev.data, ev.shape).value, f), 0)
    ensures f.None? ==> Restrict(ev, f) == ev
  {
    KeptReadAlone(ev.data, ev.shape, f);
    if f.None? {
      KeptAll(Pieces(ev.data, ev.shape).value);
      JoinedIsData(ev.data, ev.shape);
    }
  }

  /** No row of the event matches the filter. */
  predicate Unmatched(ev: RawEvent, f: Option<Filter>)
    requires Pieces(ev.data, ev.shape).Ok?
  {
    f.Some? && Kept(Pieces(ev.data, ev.shape).value, f) == []
  }

  /** What an entry comes to under the filter. */
  function Matching(e: Entry, out: Output): (r: Entry)
    requires EntryGood(e)
  {
    if e.TextEntry? then e
    else if Unmatched(e.ev, out.filter) then TextEntry(out.note(e.ev))
    else RowsEntry(Restrict(e.ev, out.filter), e.prefix)
  }

  function MatchingAll(es: seq<Entry>, out: Output): (rs: seq<Entry>)
    requires EntriesGood(es)
    ensures |rs| == |es|
  {
    if es == [] then []
    else
      assert EntryGood(es[0]);
      assert EntriesGood(es[1..]);
      [Matching(es[0], out)] + MatchingAll(es[1..], out)
  }

  lemma MatchingIsGood(e: Entry, out: Output)
    requires EntryGood(e)
    ensures EntryGood(Matching(e, out)) && (out.filter.None? ==> Matching(e, out) == e)
  {
    if e.RowsEntry? { RestrictIsGood(e.ev, out.filter); }
  }

  lemma {:induction false} MatchingAllAt(es: seq<Entry>, out: Output, i: nat)
    requires EntriesGood(es) && i < |es|
    ensures EntryGood(es[i]) && MatchingAll(es, out)[i] == Matching(es[i], out) && EntryGood(Matching(es[i], out))
  {
    assert EntryGood(es[0]);
    MatchingIsGood(es[i], out);
    if i > 0 { MatchingAllAt(es[1..], out, i - 1); }
  }

  lemma MatchingAllIsGood(es: seq<Entry>, out: Output)
    requires EntriesGood(es)
    ensures EntriesGood(MatchingAll(es, out))
    ensures out.filter.None? ==> MatchingAll(es, out) == es
  {
    forall i | 0 <= i < |es|
      ensures EntryGood(MatchingAll(es, out)[i]) && (out.filter.None? ==> MatchingAll(es, out)[i] == es[i])
    {
      MatchingAllAt(es, out, i);
      MatchingIsGood(es[i], out);
    }
  }

  /** The rewritten event before its last touches. */
  function Raw(ev: RawEvent, prefix: bytes): (b: bytes)
    requires Pieces(ev.data, ev.shape).Ok? && |prefix| > EVENT_HEADER_SIZE
    ensures |b| >= |prefix| && b[|prefix|..] == Rewrite(ev).data
    ensures b[EVENT_TYPE_POS] == if SwapType(ev.eventType) == ev.eventType then prefix[EVENT_TYPE_POS]
      else Rewrite(ev).eventType
  {
    RowsEvents.Head(prefix, |prefix| - EVENT_HEADER_SIZE, ev.eventType) + Rewritten(ev.data, ev.shape)
  }

  function EventBytes(ev: RawEvent, prefix: bytes, out: Output): (b: bytes)
    requires Pieces(ev.data, ev.shape).Ok? && |prefix| > EVENT_HEADER_SIZE
  {
    RowsEvents.Finished(Raw(ev, prefix), out.stamp, out.crc(Raw(ev, prefix)))
  }

  function Block(e: Entry, out: Output): (b: bytes)
    requires EntryGood(e)
  {
    if e.TextEntry? then e.block else out.show(Rewrite(e.ev), EventBytes(e.ev, e.prefix, out))
  }

  function Blocks(es: seq<Entry>, out: Output): (bs: seq<bytes>)
    requires EntriesGood(es)
    ensures |bs| == |es|
  {
    seq(|es|, i requires 0 <= i < |es| => Block(es[i], out))
  }

  // ----- the event, read from its bytes -----

  /** What a table map event tells. */
  datatype Table = Table(cols: seq<Column>, codec: Codec)

  /**
   A rows event without its checksum, read as the parser reads it: type, body header, table. None
   stands for an error, a panic or a compressed event.
   */
  function ReadEvent(b: bytes, tables: map<nat, Table>, idSize: nat): (r: Option<RawEvent>) {
    if |b| < 19 || RowsHeader.Compressed(b[4]) then None
    else
      match RowsHeader.ReadHeader(b[19..], RowsHeader.LayoutOf(b[4]), idSize)
      case None => None
      case Some((h, n)) => EventOf(h, b[4], b[19 + n..], tables)
  }

  function EventOf(h: RowsHeader.Header, t: byte, data: bytes, tables: map<nat, Table>): (r: Option<RawEvent>) {
    if h.tableId !in tables || h.columnCount > |tables[h.tableId].cols| then None
    else
      var table := tables[h.tableId];
      var shape := Shape(table.cols[..h.columnCount], h.bitmap1, h.bitmap2, RowsHeader.NeedsBitmap2(t), table.codec);
      Some(RawEvent(h.tableId, shape, t, data))
  }

  /** What a server writes is read, of a table that is known and has the columns, and else refused. */
  lemma EventRead(front: bytes, h: RowsHeader.Header, idSize: nat, w: bytes, data: bytes, tables: map<nat, Table>)
    requires |front| == 19 && !RowsHeader.Compressed(front[4])
    requires RowsHeader.HeaderFits(h, idSize) && RowsHeader.HasLayout(h, RowsHeader.LayoutOf(front[4]))
    requires w == RowsHeader.WriteHeader(h, idSize, RowsHeader.LayoutOf(front[4]).version2)
    ensures ReadEvent(front + (w + data), tables, idSize) ==
      if h.tableId in tables && h.columnCount <= |tables[h.tableId].cols| then
        var table := tables[h.tableId];
        var two := front[4] in {24, 31, 39};
        var shape := Shape(table.cols[..h.columnCount], h.bitmap1, h.bitmap2, two, table.codec);
        Some(RawEvent(h.tableId, shape, front[4], data))
      else None
  {
    RowsHeader.HeaderRoundTrip(h, RowsHeader.LayoutOf(front[4]), idSize, data);
    BehindHeaders(front, w, data);
    HeaderThenRows(front + (w + data), tables, idSize, h, |w|, data);
    UpdatesHaveTwo(front[4]);
  }

  lemma BehindHeaders(front: bytes, w: bytes, data: bytes)
    requires |front| == 19
    ensures (front + (w + data))[19..] == w + data && (front + (w + data))[19 + |w|..] == data
    ensures (front + (w + data))[4] == front[4]
  {
  }

  lemma HeaderThenRows(b: bytes, tables: map<nat, Table>, idSize: nat, h: RowsHeader.Header, n: nat, data: bytes)
    requires |b| >= 19 && !RowsHeader.Compressed(b[4]) && n <= |b| - 19 && data == b[19 + n..]
    requires RowsHeader.ReadHeader(b[19..], RowsHeader.LayoutOf(b[4]), idSize) == Some((h, n))
    ensures ReadEvent(b, tables, idSize) == EventOf(h, b[4], data, tables)
  {
  }

  lemma UpdatesHaveTwo(t: byte)
    requires !RowsHeader.Compressed(t)
    ensures RowsHeader.NeedsBitmap2(t) <==> t in {24, 31, 39}
  {
  }

  /** The bytes before the rows are the headers of the event. */
  ghost predicate Heads(ev: RawEvent, prefix: bytes, tables: map<nat, Table>, idSize: nat) {
    ReadEvent(prefix, tables, idSize) == Some(ev.(data := [])) && ev.shape.cols != []
  }

  /** Rows behind the headers, under the type that the headers have or under its opposite. */
  lemma RowsBehind(ev: RawEvent, prefix: bytes, tables: map<nat, Table>, idSize: nat, b: bytes, data: bytes)
    requires Heads(ev, prefix, tables, idSize) && |b| >= 19 && b[19..] == prefix[19..] + data
    requires b[4] == ev.eventType || b[4] == SwapType(ev.eventType)
    ensures ReadEvent(b, tables, idSize) == Some(ev.(eventType := b[4], data := data))
  {
    var body, t := prefix[19..], prefix[4];
    var (h, n) := RowsHeader.ReadHeader(body, RowsHeader.LayoutOf(t), idSize).value;
    assert EventOf(h, t, prefix[19 + n..], tables) == Some(ev.(data := [])) && t == ev.eventType;
    assert n == |body| && h.columnCount == |ev.shape.cols|;
    RowsHeader.HeaderLocal(body, RowsHeader.LayoutOf(t), idSize, data);
    RowsHeader.SameHeader(body + data, t, idSize);
    RowsHeader.KeepsVersion(t);
    assert b[19 + n..] == b[19..][n..] == data;
  }

  /**
   Whoever reads the finished event finds the size it has, the opposite type and the time stamp that
   was asked for in its header, the other fields as they were; and reads, up to the checksum and at
   the version it was written in, the rewritten event.
   */
  lemma EventBytesRead(ev: RawEvent, prefix: bytes, out: Output, tables: map<nat, Table>, idSize: nat)
    requires Pieces(ev.data, ev.shape).Ok? && |prefix| > EVENT_HEADER_SIZE && Heads(ev, prefix, tables, idSize)
    ensures ReadEvent(prefix + ev.data, tables, idSize) == Some(ev)
    ensures var b, n := EventBytes(ev, prefix, out), |Raw(ev, prefix)|;
      19 < n <= |b| && ReadEvent(b[..n], tables, idSize) == Some(Rewrite(ev))
    ensures var b, h := EventBytes(ev, prefix, out), RowsHeader.ReadEventHeader(prefix);
      |b| < Pow256(4) && (out.stamp.Some? ==> out.stamp.value < Pow256(4)) && h.Some? ==>
        RowsHeader.ReadEventHeader(b)
        == Some(h.value.(timestamp := if out.stamp.Some? then out.stamp.value else h.value.timestamp,
                         eventType := Rewrite(ev).eventType, eventSize := |b|))
  {
    var raw := Raw(ev, prefix);
    var b, n := EventBytes(ev, prefix, out), |raw|;
    assert (prefix + ev.data)[19..] == prefix[19..] + ev.data;
    RowsBehind(ev, prefix, tables, idSize, prefix + ev.data, ev.data);
    RowsEvents.FinishedReads(raw, out.stamp, out.crc(raw), 19);
    RawParts(ev, prefix);
    assert b[4] == b[4..9][0] == raw[4..9][0] == raw[4];
    assert b[..n][19..] == b[19..n] == raw[19..];
    RowsBehind(ev, prefix, tables, idSize, b[..n], Rewrite(ev).data);
    if |b| < Pow256(4) && (out.stamp.Some? ==> out.stamp.value < Pow256(4)) {
      FinishedHeader(prefix, raw, b, out, SwapType(ev.eventType));
    }
  }

  lemma RawParts(ev: RawEvent, prefix: bytes)
    requires Pieces(ev.data, ev.shape).Ok? && |prefix| > EVENT_HEADER_SIZE && prefix[4] == ev.eventType
    ensures var raw := Raw(ev, prefix);
      && |raw| >= |prefix| && raw[4] == SwapType(ev.eventType) && raw[..4] == prefix[..4] && raw[5..19] == prefix[5..19]
      && raw[19..] == prefix[19..] + Rewrite(ev).data
  {
    assert prefix[..|prefix|] == prefix;
  }

  lemma FinishedHeader(prefix: bytes, raw: bytes, b: bytes, out: Output, t: byte)
    requires |prefix| > 19 && |raw| >= |prefix| && raw[4] == t && raw[..4] == prefix[..4] && raw[5..19] == prefix[5..19]
    requires b == RowsEvents.Finished(raw, out.stamp, out.crc(raw)) && |b| < Pow256(4)
    requires out.stamp.Some? ==> out.stamp.value < Pow256(4)
    ensures var h := RowsHeader.ReadEventHeader(prefix); h.Some? ==>
      RowsHeader.ReadEventHeader(b)
      == Some(h.value.(timestamp := if out.stamp.Some? then out.stamp.value else h.value.timestamp, eventType := t,
                       eventSize := |b|))
  {
    RowsEvents.FinishedReads(raw, out.stamp, out.crc(raw), 19);
    var stamp := if out.stamp.Some? then LE(4, out.stamp.value) else raw[..4];
    RowsEvents.FinishedParts(stamp, raw[4..9], LE(4, |b|), raw[13..], out.crc(raw), b);
    if out.stamp.Some? { LittleEndianRoundTrip(4, out.stamp.value); }
    assert raw[13..] == raw[13..|raw|];
    OtherFields(prefix, raw, b);
  }

  lemma SameWithin(a: bytes, b: bytes, i: nat, j: nat, k: nat, l: nat)
    requires i <= k <= l <= j && j <= |a| && j <= |b| && a[i..j] == b[i..j]
    ensures a[k..l] == b[k..l]
  {
    forall x | k <= x < l ensures a[x] == b[x] { assert a[x] == a[i..j][x - i] && b[x] == b[i..j][x - i]; }
  }

  lemma OtherFields(prefix: bytes, raw: bytes, b: bytes)
    requires |prefix| > 19 && |b| >= |raw| >= |prefix| && raw[5..19] == prefix[5..19]
    requires b[4..9] == raw[4..9] && b[13..|raw|] == raw[13..|raw|]
    ensures b[4] == raw[4] && b[5..9] == prefix[5..9] && b[13..17] == prefix[13..17] && b[17..19] == prefix[17..19]
  {
    SameWithin(b, raw, 4, 9, 5, 9);
    SameWithin(raw, prefix, 5, 19, 5, 9);
    SameWithin(b, raw, 13, |raw|, 13, 17);
    SameWithin(raw, prefix, 5, 19, 13, 17);
    SameWithin(b, raw, 13, |raw|, 17, 19);
    SameWithin(raw, prefix, 5, 19, 17, 19);
    assert b[4] == b[4..9][0];
  }

  /** The rows events among the entries. */
  function EventsIn(es: seq<Entry>): (evs: seq<RawEvent>) {
    if es == [] then [] else (if es[0].RowsEntry? then [es[0].ev] else []) + EventsIn(es[1..])
  }

  lemma {:induction false} EventsGood(es: seq<Entry>)
    requires EntriesGood(es)
    ensures AllGood(EventsIn(es))
  {
    if es != [] {
      assert EntryGood(es[0]);
      EventsGood(es[1..]);
    }
  }

  lemma {:induction false} EventsInSum(a: seq<Entry>, b: seq<Entry>)
    ensures EventsIn(a + b) == EventsIn(a) + EventsIn(b)
  {
    if a == [] {
      assert a + b == b;
    } else {
      EventsInSum(a[1..], b);
      DropConcat(a, b, 1);
      ConcatAssoc(if a[0].RowsEntry? then [a[0].ev] else [], EventsIn(a[1..]), EventsIn(b));
    }
  }

  /** From the last entry to the first, the events come from the last to the first. */
  lemma {:induction false} EventsReversed(es: seq<Entry>)
    ensures EventsIn(Reversed(es)) == Reversed(EventsIn(es))
    decreases |es|
  {
    if es != [] {
      var rest := es[1..];
      EventsReversed(rest);
      HeadTail(es);
      ReversedEnds(rest, es[0]);
      EventsInSum(Reversed(rest), [es[0]]);
      assert [es[0]][1..] == [];
      if es[0].RowsEntry? {
        ReversedEnds(EventsIn(rest), es[0].ev);
        ConcatEmpty([es[0].ev]);
      } else {
        ConcatEmpty(EventsIn(Reversed(rest)));
        assert EventsIn(es) == [] + EventsIn(rest) == EventsIn(rest);
      }
    }
  }

  /**
   The file from front to back: its rows events are the rewritten events from the last
   to the first, and replaying them undoes what the events of the stream did, exactly
   when every event is restorable where it was applied.
   */
  lemma FileUndoes(db: Db<Located>, es: seq<Entry>)
    requires EntriesGood(es)
    ensures AllGood(EventsIn(es)) && AllGood(EventsIn(Reversed(es)))
    ensures RewriteAll(EventsIn(Reversed(es))) == Reversed(RewriteAll(EventsIn(es)))
    ensures AllRead(EventsIn(es)) && AllRead(RewriteAll(EventsIn(Reversed(es))))
    ensures ApplyAll(db, Meanings(EventsIn(es))).Some? ==>
      ApplyAll(ApplyAll(db, Meanings(EventsIn(es))).value, Meanings(RewriteAll(EventsIn(Reversed(es)))))
      == if RunRestorable(db, Meanings(EventsIn(es))) then Some(db) else None
  {
    EventsGood(es);
    EventsReversed(es);
    assert RewriteAll(EventsIn(Reversed(es))) == Reversed(RewriteAll(EventsIn(es)));
    StreamUndone(db, EventsIn(es));
  }

  /**
   One rows event through the object: FlashbackData2 on its bytes, then time stamp, checksum
   and size. An event without a match is left as its bare header and has no last form.
   */
  method RewriteEvent(ev: RawEvent, prefix: bytes, out: Output) returns (event: Option<bytes>)
    requires Good(ev) && Good(Restrict(ev, out.filter)) && |prefix| > EVENT_HEADER_SIZE
    ensures event == if Unmatched(ev, out.filter) then None
                     else Some(EventBytes(Restrict(ev, out.filter), prefix, out))
  {
    var pos, body := |prefix| - EVENT_HEADER_SIZE, prefix[EVENT_HEADER_SIZE..] + ev.data;
    assert body[pos..] == ev.data;
    var e := new RowsEvents.RowsEvent(ev.shape, out.filter, None, ev.eventType, prefix + ev.data);
    var ok := e.FlashbackData2(pos, body);
    RestrictedRaw(ev, prefix, out.filter);
    if |e.rawBytesNew| <= EVENT_HEADER_SIZE { return None; }
    var last := RowsEvents.FinishEvent(e.rawBytesNew, out.stamp, out.crc(e.rawBytesNew));
    event := Some(last);
  }

  lemma RestrictedRaw(ev: RawEvent, prefix: bytes, f: Option<Filter>)
    requires Good(ev) && Good(Restrict(ev, f)) && |prefix| > EVENT_HEADER_SIZE
    ensures Raw(Restrict(ev, f), prefix)
         == RowsEvents.Head(prefix + ev.data, |prefix| - EVENT_HEADER_SIZE, ev.eventType)
            + Swapped(Kept(Pieces(ev.data, ev.shape).value, f))
  {
    RestrictIsGood(ev, f);
    assert (prefix + ev.data)[..|prefix|] == prefix == prefix[..|prefix|];
  }

  /** The event loop with a FlashbackWriter: one write per entry, the rows events rewritten. */
  method FlashbackStream(es: seq<Entry>, out: Output, filePrefix: string, cacheSize: int,
                         directory: map<string, bytes>, header: bytes, footer: bytes) returns (merged: bytes)
    requires EntriesGood(es)
    ensures EntriesGood(MatchingAll(es, out))
    ensures merged == header + Flatten(Reversed(Blocks(MatchingAll(es, out), out))) + footer
  {
    MatchingAllIsGood(es, out);
    ghost var ms := MatchingAll(es, out);
    ghost var blocks := Blocks(ms, out);
    var w := new FlashbackWriter(filePrefix, cacheSize, true, directory);
    w.SetHeader(header);
    WriteEntries(w, es, out, ms, blocks);
    w.SetFooter(footer);
    merged := CloseAll(w, blocks, header, footer);
  }

  method WriteEntries(w: FlashbackWriter, es: seq<Entry>, out: Output, ghost ms: seq<Entry>, ghost blocks: seq<bytes>)
    requires w.Valid() && !w.closed && w.merging && w.written == []
    requires EntriesGood(es) && ms == MatchingAll(es, out) && EntriesGood(ms) && blocks == Blocks(ms, out)
    modifies w
    ensures w.Valid() && !w.closed && w.merging && w.merged == old(w.merged) && w.cacheHeader == old(w.cacheHeader)
    ensures w.written == blocks
  {
    var i := 0;
    while i < |es|
      invariant i <= |es| && w.Valid() && !w.closed && w.merging
      invariant w.merged == old(w.merged) && w.cacheHeader == old(w.cacheHeader) && w.written == blocks[..i]
    {
      BlockAt(es, out, i, ms, blocks);
      WriteEntry(w, es[i], out, blocks[i]);
      i := i + 1;
    }
    assert blocks[..|es|] == blocks;
  }

  /** One turn of the event loop. */
  method WriteEntry(w: FlashbackWriter, e: Entry, out: Output, ghost goal: bytes)
    requires w.Valid() && !w.closed && w.merging && EntryGood(e) && EntryGood(Matching(e, out))
    requires goal == Block(Matching(e, out), out)
    modifies w
    ensures w.Valid() && !w.closed && w.merging && w.merged == old(w.merged) && w.cacheHeader == old(w.cacheHeader)
    ensures w.written == old(w.written) + [goal]
  {
    var block := EntryText(e, out, goal);
    var n := w.Write(block);
  }

  /** The text that one entry adds. */
  method EntryText(e: Entry, out: Output, ghost goal: bytes) returns (block: bytes)
    requires EntryGood(e) && EntryGood(Matching(e, out)) && goal == Block(Matching(e, out), out)
    ensures block == goal
  {
    if e.TextEntry? { return e.block; }
    RestrictIsGood(e.ev, out.filter);
    var event := RewriteEvent(e.ev, e.prefix, out);
    block := if event.None? then out.note(e.ev) else out.show(Rewrite(Restrict(e.ev, out.filter)), event.value);
  }

  lemma BlockAt(es: seq<Entry>, out: Output, i: nat, ms: seq<Entry>, blocks: seq<bytes>)
    requires EntriesGood(es) && i < |es| && ms == MatchingAll(es, out) && EntriesGood(ms) && blocks == Blocks(ms, out)
    ensures EntryGood(es[i]) && EntryGood(Matching(es[i], out)) && blocks[i] == Block(Matching(es[i], out), out)
    ensures blocks[..i + 1] == blocks[..i] + [blocks[i]]
  {
    MatchingAllAt(es, out, i);
  }

  // ----- which rows a filter restores -----

  function Marks(ps: seq<Piece>, f: Option<Filter>): (marks: seq<bool>)
    ensures |marks| == |ps|
  {
    if ps == [] then [] else [Keeps(f, ps[0])] + Marks(ps[1..], f)
  }

  /** What an event does, told from its pieces. */
  function PieceMeaning(ev: RawEvent): (e: UndoRun.Event<Located>)
    requires Pieces(ev.data, ev.shape).Ok?
  {
    Meaning(ev.eventType, ev.table, ImagesOf(Pieces(ev.data, ev.shape).value, ev.shape.needBitmap2))
  }

  /** The event with its rows marked as the filter sees them. */
  function MarkedBy(ev: RawEvent, f: Option<Filter>): (m: FilteredUndo.Marked<Located>)
    requires Pieces(ev.data, ev.shape).Ok?
  {
    FilteredUndo.Marked(PieceMeaning(ev), Marks(Pieces(ev.data, ev.shape).value, f))
  }

  lemma {:induction false} RowsKept(table: nat, ps: seq<Piece>, f: Option<Filter>)
    ensures |RowsIn(table, ImagesOf(ps, false))| == |ps|
    ensures RowsIn(table, ImagesOf(Kept(ps, f), false))
         == FilteredUndo.Pick(RowsIn(table, ImagesOf(ps, false)), Marks(ps, f), true)
  {
    if ps != [] {
      RowsKept(table, ps[1..], f);
      OneImage(table, ps[0], ps[1..], ps);
      var ks := Kept(ps[1..], f);
      assert [] + ks == ks;
      OneImage(table, ps[0], ks, [ps[0]] + ks);
    }
  }

  lemma OneImage(table: nat, p: Piece, rest: seq<Piece>, ps: seq<Piece>)
    requires ps != [] && ps[0] == p && ps[1..] == rest
    ensures RowsIn(table, ImagesOf(ps, false)) == [Located(table, p.first.row)] + RowsIn(table, ImagesOf(rest, false))
  {
    ConcatEmpty([p.first]);
    assert ImagesOf(ps, false) == [p.first] + ImagesOf(rest, false);
    assert ImagesOf(ps, false)[1..] == ImagesOf(rest, false);
  }

  lemma {:induction false} ChangesKept(table: nat, ps: seq<Piece>, f: Option<Filter>)
    ensures |ChangesIn(table, ImagesOf(ps, true))| == |ps|
    ensures ChangesIn(table, ImagesOf(Kept(ps, f), true))
         == FilteredUndo.Pick(ChangesIn(table, ImagesOf(ps, true)), Marks(ps, f), true)
  {
    if ps != [] {
      ChangesKept(table, ps[1..], f);
      var p, ks := ps[0], Kept(ps[1..], f);
      TwoImages(table, p.first, p.second, ImagesOf(ps[1..], true), ImagesOf(ps, true));
      assert [] + ks == ks && ([p] + ks)[1..] == ks;
      TwoImages(table, p.first, p.second, ImagesOf(ks, true), ImagesOf([p] + ks, true));
    }
  }

  /** The event with the rows that match means the marked part of the event. */
  lemma RestrictedMeaning(ev: RawEvent, f: Option<Filter>)
    requires Good(ev)
    ensures Rows(ev.data, ev.shape).Ok? && MeaningOf(ev) == PieceMeaning(ev)
    ensures |MarkedBy(ev, f).marks| == FilteredUndo.Size(MarkedBy(ev, f).event)
    ensures Good(Restrict(ev, f)) && Rows(Restrict(ev, f).data, ev.shape).Ok?
    ensures MeaningOf(Restrict(ev, f)) == FilteredUndo.Part(MarkedBy(ev, f), true)
  {
    var ps := Pieces(ev.data, ev.shape).value;
    PiecesAreRows(ev.data, ev.shape);
    RestrictIsGood(ev, f);
    PiecesAreRows(Restrict(ev, f).data, ev.shape);
    if ev.shape.needBitmap2 { ChangesKept(ev.table, ps, f); } else { RowsKept(ev.table, ps, f); }
  }

  // ----- the filtered file, replayed -----

  /** A list of events with some that do nothing left out. */
  ghost predicate Thinned<R>(a: seq<UndoRun.Event<R>>, b: seq<UndoRun.Event<R>>)
    decreases |b|
  {
    if b == [] then a == []
    else (FilteredUndo.Size(b[0]) == 0 && Thinned(a, b[1..])) || (a != [] && a[0] == b[0] && Thinned(a[1..], b[1..]))
  }

  lemma {:induction false} ThinnedUndo<R>(a: seq<UndoRun.Event<R>>, b: seq<UndoRun.Event<R>>, db: Db<R>)
    requires Thinned(a, b)
    ensures ApplyAll(db, Undo(a)) == ApplyAll(db, Undo(b))
    decreases |b|
  {
    if b != [] {
      var last := Flashback(b[0]);
      ApplyAppend(db, Undo(b[1..]), last);
      if FilteredUndo.Size(b[0]) == 0 && Thinned(a, b[1..]) {
        ThinnedUndo(a, b[1..], db);
        if ApplyAll(db, Undo(a)).Some? { NothingDone(ApplyAll(db, Undo(a)).value, b[0]); }
      } else {
        ThinnedUndo(a[1..], b[1..], db);
        ApplyAppend(db, Undo(a[1..]), last);
      }
    }
  }

  lemma NothingDone<R>(db: Db<R>, e: UndoRun.Event<R>)
    requires FilteredUndo.Size(e) == 0
    ensures Apply(db, Flashback(e)) == Some(db)
  {
    if e.Delete? { assert e.rows == [] && db + multiset(e.rows) == db; }
  }

  /** The rows events of the stream, their rows marked. */
  function MarkedIn(es: seq<Entry>, f: Option<Filter>): (ms: seq<FilteredUndo.Marked<Located>>)
    requires EntriesGood(es)
    ensures FilteredUndo.AllMarked(ms)
  {
    if es == [] then []
    else
      assert EntryGood(es[0]);
      assert EntriesGood(es[1..]);
      var rest := MarkedIn(es[1..], f);
      if es[0].TextEntry? then rest
      else
        RestrictedMeaning(es[0].ev, f);
        [MarkedBy(es[0].ev, f)] + rest
  }

  lemma MeaningsCons(ev: RawEvent, evs: seq<RawEvent>)
    requires Rows(ev.data, ev.shape).Ok? && AllRead(evs)
    ensures AllRead([ev] + evs) && Meanings([ev] + evs) == [MeaningOf(ev)] + Meanings(evs)
  {
    assert Meanings([ev] + evs) == [MeaningOf(ev)] + Meanings(evs);
  }

  lemma MarkedCons<R>(m: FilteredUndo.Marked<R>, ms: seq<FilteredUndo.Marked<R>>)
    requires |m.marks| == FilteredUndo.Size(m.event) && FilteredUndo.AllMarked(ms)
    ensures FilteredUndo.AllMarked([m] + ms)
    ensures FilteredUndo.Wholes([m] + ms) == [m.event] + FilteredUndo.Wholes(ms)
    ensures FilteredUndo.Parts([m] + ms, true) == [FilteredUndo.Part(m, true)] + FilteredUndo.Parts(ms, true)
  {
    assert ([m] + ms)[1..] == ms;
  }

  lemma StreamStep(ev: RawEvent, f: Option<Filter>, evs: seq<RawEvent>, ms: seq<FilteredUndo.Marked<Located>>)
    requires Good(ev) && AllRead(evs) && FilteredUndo.AllMarked(ms) && FilteredUndo.Wholes(ms) == Meanings(evs)
    ensures AllRead([ev] + evs) && FilteredUndo.AllMarked([MarkedBy(ev, f)] + ms)
    ensures FilteredUndo.Wholes([MarkedBy(ev, f)] + ms) == Meanings([ev] + evs)
  {
    RestrictedMeaning(ev, f);
    MeaningsCons(ev, evs);
    MarkedCons(MarkedBy(ev, f), ms);
  }

  lemma {:induction false} StreamMarked(es: seq<Entry>, f: Option<Filter>)
    requires EntriesGood(es)
    ensures AllRead(EventsIn(es)) && FilteredUndo.Wholes(MarkedIn(es, f)) == Meanings(EventsIn(es))
  {
    if es != [] {
      assert EntryGood(es[0]);
      StreamMarked(es[1..], f);
      var evs, ms := EventsIn(es[1..]), MarkedIn(es[1..], f);
      if es[0].RowsEntry? {
        StreamStep(es[0].ev, f, evs, ms);
      } else {
        assert [] + evs == evs;
      }
    }
  }

  /** What the rows events of a stream do. */
  ghost function Effects(es: seq<Entry>): (r: seq<UndoRun.Event<Located>>)
    requires EntriesGood(es)
  {
    StreamMarked(es, None);
    Meanings(EventsIn(es))
  }

  /** What the rows events in the file of a filtered flashback do, read from its start. */
  ghost function FileEffects(es: seq<Entry>, out: Output): (r: seq<UndoRun.Event<Located>>)
    requires EntriesGood(es)
  {
    MatchingAllIsGood(es, out);
    FileUndoes(multiset{}, MatchingAll(es, out));
    Meanings(RewriteAll(EventsIn(Reversed(MatchingAll(es, out)))))
  }

  lemma {:induction false} MatchingThins(es: seq<Entry>, out: Output)
    requires EntriesGood(es)
    requires EntriesGood(MatchingAll(es, out)) && AllRead(EventsIn(MatchingAll(es, out)))
    ensures Thinned(Meanings(EventsIn(MatchingAll(es, out))), FilteredUndo.Parts(MarkedIn(es, out.filter), true))
    decreases |es|
  {
    if es != [] {
      assert EntryGood(es[0]);
      var f, rest := out.filter, MatchingAll(es[1..], out);
      var ms, evs := MarkedIn(es[1..], f), EventsIn(rest);
      assert MatchingAll(es, out)[1..] == rest;
      MatchingAllIsGood(es[1..], out);
      StreamMarked(rest, f);
      MatchingThins(es[1..], out);
      assert [] + evs == evs;
      if es[0].RowsEntry? { MatchingStep(es[0].ev, f, evs, ms); }
    }
  }

  lemma MatchingStep(ev: RawEvent, f: Option<Filter>, evs: seq<RawEvent>, ms: seq<FilteredUndo.Marked<Located>>)
    requires Good(ev) && AllRead(evs) && FilteredUndo.AllMarked(ms)
    requires Thinned(Meanings(evs), FilteredUndo.Parts(ms, true))
    ensures FilteredUndo.AllMarked([MarkedBy(ev, f)] + ms) && AllRead([Restrict(ev, f)] + evs)
    ensures Thinned(if Unmatched(ev, f) then Meanings(evs) else Meanings([Restrict(ev, f)] + evs),
                    FilteredUndo.Parts([MarkedBy(ev, f)] + ms, true))
  {
    RestrictedMeaning(ev, f);
    MarkedCons(MarkedBy(ev, f), ms);
    MeaningsCons(Restrict(ev, f), evs);
    if Unmatched(ev, f) {
      RestrictIsGood(ev, f);
      NoRows(Restrict(ev, f));
    }
    ThinnedCons(MeaningOf(Restrict(ev, f)), Meanings(evs), FilteredUndo.Parts(ms, true));
  }

  lemma ThinnedCons<R>(e: UndoRun.Event<R>, a: seq<UndoRun.Event<R>>, b: seq<UndoRun.Event<R>>)
    requires Thinned(a, b)
    ensures Thinned([e] + a, [e] + b) && (FilteredUndo.Size(e) == 0 ==> Thinned(a, [e] + b))
  {
    assert ([e] + a)[1..] == a && ([e] + b)[1..] == b;
  }

  lemma NoRows(r: RawEvent)
    requires Pieces(r.data, r.shape).Ok? && Pieces(r.data, r.shape).value == [] && Rows(r.data, r.shape).Ok?
    ensures FilteredUndo.Size(MeaningOf(r)) == 0
  {
    PiecesAreRows(r.data, r.shape);
  }

  /** Replaying the filtered file does what undoing the marked parts of the events does. */
  lemma FilteredFile(es: seq<Entry>, out: Output, db: Db<Located>)
    requires EntriesGood(es)
    ensures ApplyAll(db, FileEffects(es, out))
         == ApplyAll(db, Undo(FilteredUndo.Parts(MarkedIn(es, out.filter), true)))
  {
    var ms := MatchingAll(es, out);
    MatchingAllIsGood(es, out);
    StreamMarked(ms, out.filter);
    MatchingThins(es, out);
    FileUndoes(db, ms);
    GoodAreRead(EventsIn(ms));
    ThinnedUndo(Meanings(EventsIn(ms)), FilteredUndo.Parts(MarkedIn(es, out.filter), true), db);
  }

  /**
   The file of a filtered flashback, replayed after the stream: of every row it leaves what
   there was at first and what the changes that did not match added.
   */
  lemma FilteredFileUndoes(db: Db<Located>, es: seq<Entry>, out: Output, end: Db<Located>, x: Located)
    requires EntriesGood(es) && ApplyAll(db, Effects(es)).Some?
    requires ApplyAll(ApplyAll(db, Effects(es)).value, FileEffects(es, out)) == Some(end)
    ensures end[x] == db[x] + FilteredUndo.NetAll(FilteredUndo.Parts(MarkedIn(es, out.filter), false), x)
  {
    StreamMarked(es, out.filter);
    FilteredFile(es, out, ApplyAll(db, Effects(es)).value);
    FilteredUndo.OnlyMatchingUndone(db, MarkedIn(es, out.filter), end, x);
  }

  /**
   When the filter tells the rows apart, before and after, the replay takes the rows that match
   back to what they were and leaves the others as the stream left them, exactly when the
   matching part of the stream is restorable.
   */
  lemma FilteredFileRestores(on: Db<Located>, off: Db<Located>, es: seq<Entry>, out: Output, p: Located -> bool)
    requires EntriesGood(es) && FilteredUndo.AllApart(MarkedIn(es, out.filter), p)
    requires FilteredUndo.Pure(on, p, true) && FilteredUndo.Pure(off, p, false)
    requires ApplyAll(on + off, Effects(es)).Some?
    ensures var kept, others := FilteredUndo.Parts(MarkedIn(es, out.filter), true),
                                FilteredUndo.Parts(MarkedIn(es, out.filter), false);
      && ApplyAll(on, kept).Some? && ApplyAll(off, others).Some?
      && ApplyAll(ApplyAll(on + off, Effects(es)).value, FileEffects(es, out))
         == if RunRestorable(on, kept) then Some(on + ApplyAll(off, others).value) else None
  {
    StreamMarked(es, out.filter);
    FilteredFile(es, out, ApplyAll(on + off, Effects(es)).value);
    FilteredUndo.MatchingRestored(on, off, MarkedIn(es, out.filter), p);
  }

  /** Closing the writer after all its writes. */
  method CloseAll(w: FlashbackWriter, ghost blocks: seq<bytes>, ghost header: bytes, ghost footer: bytes)
    returns (merged: bytes)
    requires w.Valid() && !w.closed && w.merging && w.merged == [] && w.cacheHeader == header && w.cacheFooter == footer
    requires w.written == blocks
    modifies w
    ensures merged == header + Flatten(Reversed(blocks)) + footer
  {
    assert [] + header == header;
    w.Close();
    merged := w.merged;
  }
}
