# go-mysql in Dafny

A model of the parts of go-mysql where correctness is not plain from one function:
undoing a binlog (flashback), resuming a GTID stream, the algebra and codecs of
GTID sets, the binary decoders of row values, two wire codecs whose halves live in
different packages, the connection pool, and the dump value parser.

The files fall into groups. Each group names what it proves.

- **Flashback.** `RowValue` (every column type of `decodeValue`, built on `Decimal`,
  `Time2` and `Jsonb*`), `SqlColumns` (columns as SQL declares them, with the type,
  metadata and bytes of each in numbers), `RowImage` (row images and the row loop),
  `FlashbackRewrite` (what rewriting an event does to its bytes), `RowsHeader` (the
  headers of an event and its version), `RowsEvent` (the object that does it in place),
  `FlashbackWriter` (reversal through part files), `UndoRun` (events as changes to a multiset
  of rows), `FilteredUndo` (undoing only the rows that match a filter) and `FlashbackRun` (all
  of it end to end). The pipeline's output, read as events, takes the
  final table state back to the first one exactly when every update event leaves its after
  images in place until they are undone. With a row filter it undoes the restriction of
  each event to the rows that match, and nothing else.
- **GTID.** `Intervals`, `GtidSet`, `GtidBinary` and `GtidText` refine mathematical sets
  of (uuid, tag, number); `GtidMeaning` says which texts are accepted and which numbers
  they name, `GtidExact` that the binary form has no slack. `GtidResume` is the client's bookkeeping against a server log,
  over every run with connections lost anywhere; `GtidLoss` says exactly when such a run
  loses a transaction, and `GtidCommit` when the set handed out with a commit is one that a
  new client can start from.
- **Decoders.** `Jsonb` (the recursive decoder and its format as a relation),
  `JsonbEncoder` (a writer that meets the relation), `JsonbReader` (the object with the
  sticky error), `JsonbTermination` (exactly when the decoder returns), `Decimal`,
  `Time2`, `Serialization`, `DumpValues`.
- **Wire.** `PacketFraming` and `StmtExecute`, each a writer, a reader and exactly when one
  undoes the other, for single packets and for the whole life of a prepared statement;
  `StmtRefusals` says that a packet cut short anywhere is refused, and `StmtAttributes` reads
  the packet with query attributes as the protocol lays it out.
- **Pool.** `Pool` is a state machine over the lock-protected sections of all goroutines;
  `PoolSections` is those sections on the shared slice, in place, and `PoolProgress` says when
  the loops that Close waits for can end.
- **Base.** `Bytes`, `Bits`, `Digits` and `Lists` hold byte order, bitmaps, decimal text
  and sequence facts.

A definition that a writer and its reader share is fixed by a law of its own, in the numbers
of the format: event types and versions, JSON type codes, entry sizes and what lies inside an entry, column
metadata, parameter types, group sizes, the frame limit, separators, part names.

Loops and objects of the source are methods and classes here. Each is proved against a
function of its inputs or its old state, and the laws are lemmas about those functions.
Network, files, clocks, randomness, map iteration order and the row filter's expression
are parameters, arbitrary choices or fields that hold bytes.

`RowImage`, `FlashbackRewrite`, `RowsEvent` and `FlashbackRun` take the value codec as a
parameter and ask of it only that it round-trips (`Faithful`) and looks at no byte beyond
those it consumes (`Local`). `RowImage.ValueCodecIsFaithful` proves both of `decodeValue`,
so every theorem about them holds of the real one.

Three outcomes stand for what the source does on bad input: `Fault` or `None` for an error
or a recovered panic, `Hang` or `Loops` for a call that never returns.

Where the code and its documentation disagree, the code is followed:

- The comment on `NewPool` (client/pool.go:155-159) allows one connection above `maxAlive`.
  The largest TotalCount that runs reach is `maxAlive + minAlive + min(minAlive, 5)`:
  `Pool.PeakIsReached` and `Pool.PeakIsExact`. So the documented limit holds exactly when
  `minAlive` is zero: `Pool.MaxAliveHoldsExactly`.
- Close cancels the context and waits for the producer (client/pool.go:571-574), which does not
  look at the context while as many connections as allowed are counted and none is idle
  (client/pool.go:297-302). It can end by itself exactly when that is not so:
  `PoolProgress.ProducerStops`.
- A plain GTID event adds the event before it without its tag
  (replication/binlogsyncer.go:961). Resuming is safe exactly when that never drops a tag:
  `GtidResume.SafeExactlyWhenTagsKept`. A transaction is lost for good exactly when the GTID
  without its tag is that of a later transaction: `GtidLoss.LosesExactlyWhenNamed`, with an
  example in `GtidResume.SkippedTransaction`. The set handed out with a commit event
  (replication/binlogsyncer.go:1001-1004) can be started from without a skip or a repeat on
  the same condition: `GtidCommit.CommitSetsResumeExactly`. The set handed out with the query
  event that begins a transaction holds that transaction already: `GtidCommit.EarlySetSkips`.
- `decodeVar` does not read the nine-byte form that mysql::serialization defines, and
  `FieldString.decode` reads a one-byte length: `Serialization.UnsignedRoundTrip`,
  `Serialization.SignedRoundTrip` and `Serialization.StringRoundTrip` give the exact domains.
- The header numbers and field numbers of a message are variable-length integers in
  mysql::serialization, and `Unmarshal` takes one byte for each
  (serialization/serialization.go:201, 214-217). From 128 on it goes on inside the number and
  may drop fields without an error: `Serialization.MessageRoundTrip` has the exact condition
  and `Serialization.FieldDropped` an example.
- A JSON value offset is not checked against the header, although key offsets are. The decoder
  fails to return exactly when a chain of entries comes back to a type already open on the same
  data, so offsets above zero are enough: `JsonbTermination.LoopsExactlyOnComingBack` and
  `ForwardOffsetsReturn`, with an example in `SelfReference`.
- A statement's arguments are reset only after a handler that returns a result
  (server/stmt.go:174-178). After a refused call, a call with nils alone gives the handler the
  arguments of the refused one: `StmtExecute.EveryCallCrosses` and `StmtExecute.StaleArgument`.
- Query attributes lengthen the null bitmap of a prepared statement even on a connection without
  the capability (client/stmt.go:80-87), which is every connection with a server of this package:
  it does not offer the capability (server/server_conf.go:55-57) and the client keeps only what is
  offered (client/auth.go:279). `clear` (client/stmt.go:62) empties the attributes but keeps their
  number, so it stays that way. `StmtExecute.ArgumentsCross` gives the exact condition and
  `StmtExecute.AttributeSpills` an example.
- `DecodeData` puts the decompressed rows behind the part of the body it keeps and then starts
  at position 0 (replication/row_event.go:1113-1114), so it reads the body's own header as rows.
  `FlashbackData2` does not: `RowsEvents.RowsEvent.DecodeData` and
  `RowsEvents.RowsEvent.FlashbackData2` say what each reads.
- The binary form of a GTID set may hold a tag that starts with a digit, and the text form is
  read with a pattern that refuses it (mysql/mysql_gtid.go:23), so such a set is not parsed back
  from what it prints: `GtidText.ParsePrinted` and `GtidText.DigitTagIsLost`.
- With the query-attributes capability a prepared statement whose arguments are all nil sends no
  types and no values (client/stmt.go:91-102, 215), so its attributes are lost:
  `StmtAttributes.AttributesCross` gives the exact condition.
- `decodeExtraData` reads the source partition of an update (replication/row_event.go:1093-1100) and
  not of a compressed one. Rewriting a compressed update makes it an update, and from then on the
  partition is read with a source: `RowsHeader.SameHeader`.
- The length of the extra data of a version 2 event counts its own two bytes
  (replication/row_event.go:1046-1056). A length of zero or one wraps around and passes over more
  than 65535 bytes: `RowsHeader.ExtraLengths`.
- The interval count of a binary GTID set passes its length test when the sum in it overflows, and
  the decoder panics: `GtidBinary.PanicsExactly` and `GtidBinary.HugeCountPanics`.

## Model

| member | source | states |
|---|---|---|
| `FlashbackRun.StreamUndone` | replication/row_event_parser.go:49-201 | For every stream of rewritable events, the rewritten events in reverse order can all be read, and applying them to the final tables gives the first tables back if every event of the run is restorable where it was applied, and stops at a missing row otherwise: an exact condition over whole runs |
| `FlashbackRun.RewriteMeansFlashback` | replication/row_event_parser.go:81-201 | The rewritten bytes, decoded by the ordinary row reader, mean the opposite event: inserts and deletes exchanged with the same rows, updates with before and after exchanged, rows in the same order |
| `FlashbackRun.GoodWithValues` | replication/row_event.go:1312-1540 | With decodeValue as the value decoder, the two theorems above need nothing but a rewritable event |
| `FlashbackRun.FileUndoes` | pkg/writer.go:55-139 | The rows events of the output file, front to back, are the rewritten events from last to first, whatever other lines lie between, and replaying them undoes the stream exactly when it is restorable |
| `FlashbackRun.FilteredFileUndoes` | replication/row_event_parser.go:147-191 | Whatever the row filter: a replay of the output file that goes through leaves of every row the copies there were at first and what the changes that did not match added, so exactly the matching changes are undone |
| `FlashbackRun.FilteredFileRestores` | replication/row_event_parser.go:147-191 | If the filter tells rows apart before and after: the replay takes the rows that match back to what they were and leaves the others as the stream left them, if the matching part of the stream is restorable, and stops otherwise |
| `FlashbackRun.FilteredFile` | replication/parser_ext.go:664-690 | Replaying the file does what undoing the restriction of each event to its matching rows does; events without a match are not in the file |
| `FlashbackRun.RestrictedMeaning` | replication/row_event_parser.go:142-186 | An event whose row data hold the matching rows alone means the matching part of the event, rows in their order |
| `FlashbackRun.EventBytesRead` | replication/parser_ext.go:675-688 | Whoever parses an event that is put out finds in its header its true size, the opposite type and the time stamp asked for, all else as it was, and reads from its body, at the version it was written in, exactly the rewritten event: table, columns, bitmaps and rows |
| `FlashbackRun.WrittenMeaning` | replication/row_event.go:1105-1167 | What events mean that a server wrote: types 23 and 30 insert the rows, 25 and 32 delete them, 24 and 31 replace the first image of each pair by the second |
| `FlashbackRun.EventRead` | replication/row_event.go:1038-1103 | An event that a server writes is read with its table, columns, bitmaps and rows when its table is known and has as many columns, and else refused |
| `RowsHeader.HeaderRoundTrip` | replication/row_event.go:1038-1103 | A body header that a server writes, of either version and with any extra data, is read back whole in front of any rows |
| `RowsHeader.LayoutsAre` | replication/parser.go:562-630 | Which event types are of version 2, which have two bitmaps and which have partitions with a source, in numbers |
| `RowsHeader.ExtraLengths` | replication/row_event.go:1046-1056 | A length of the extra data below its own two bytes wraps around in 16 bits; two leave nothing |
| `RowsHeader.KeepsVersion` | replication/row_event_parser.go:81-102 | The new type is of the same version as the old one, has as many bitmaps and is not compressed |
| `RowsHeader.SameHeader` | replication/row_event_parser.go:81-102 | So the header is read under the new type as under the old one; only compressed updates change their layout, and of these only version 2 can be read differently |
| `RowsHeader.HeaderLocal` | replication/row_event.go:1038-1080 | A header that is whole is read alike whatever rows follow |
| `FlashbackRun.RewriteEvent` | replication/parser_ext.go:664-690 | The object's FlashbackData2 on the bytes of the event, with its row filter, and the last touches give exactly the rewriting of the restricted event, or nothing when no row matches |
| `FlashbackRun.FlashbackStream` | replication/parser_ext.go:120-424 | Running the object on every rows event, whatever the filter, the cache size, the directory, the checksum and the way events are printed: the output file is the header, the blocks of all entries, rows events restricted to the rows that match, from last to first, and the footer |
| `FlashbackRun.CloseAll` | pkg/writer.go:108-139 | Closing after all writes yields header, reversed writes, footer |
| `UndoRun.UndoEvent` | replication/row_event_parser.go:138-200 | The rewritten event takes the new state back to the old one exactly when a copy of each after image outlives the later changes of the event; otherwise a row to change is missing |
| `UndoRun.UndoWholeRun` | pkg/writer.go:55-139 | The rewritten events in reverse order undo a run of any length exactly when each event is restorable in the state it met |
| `UndoRun.NoneTwiceIsEnough` | replication/row_event_parser.go:172-185 | Events that update no row twice are restorable |
| `UndoRun.TwiceUpdatedRow` | replication/row_event_parser.go:172-185 | A concrete event, one row updated twice, whose flashback fails because rows keep their order inside an event |
| `UndoRun.LastFirst` | replication/row_event_parser.go:172-200 | Reversing the rows inside an event as well would undo every event without any condition |
| `FilteredUndo.OnlyMatchingUndone` | replication/row_event_parser.go:147-191 | On events as changes: undoing the marked part of every event of a run leaves of every row what there was and what the unmarked parts added |
| `FilteredUndo.MatchingRestored` | replication/row_event_parser.go:147-191 | If marks tell rows apart: the undo of the marked parts goes through exactly when the marked run, on the marked rows alone, is restorable |
| `FilteredUndo.RunApart` | replication/row_event_parser.go:147-191 | A run over two kinds of rows is the two runs of its parts, side by side |
| `FlashbackRewrite.RewriteTwice` | replication/row_event_parser.go:138-200 | Rewriting the rewritten row data restores it byte for byte, for every row data the loop accepts and full row images |
| `FlashbackRewrite.SwapsKind` | replication/row_event_parser.go:81-102 | The new type is of the opposite kind exactly when it is not a version 0 insert or delete, and swapping twice restores every type but the six compressed ones; with `RowsHeader.KeepsVersion` this fixes the new type |
| `FlashbackRewrite.PiecesExchanged` | replication/row_event_parser.go:138-187 | The rewritten update rows cut into the same images with first and second exchanged |
| `FlashbackRewrite.RewrittenEncoding` | replication/row_event_parser.go:138-187 | The rewritten data of encoded updates is the encoding of the opposite updates under exchanged bitmaps |
| `FlashbackRewrite.ReadsBack` | replication/row_event_parser.go:50-200 | With the bitmaps left where they are, the rewritten event reads as the opposite updates exactly when both bitmaps hold the same columns |
| `FlashbackRewrite.ImageLocal` | replication/row_event.go:1214-1294 | An image depends on no byte beyond those it consumes |
| `FlashbackRewrite.FilterSeesFirst` | replication/row_event_parser.go:147-155 | A row is kept by the converted first image alone |
| `FlashbackRewrite.KeptReadAlone` | replication/row_event_parser.go:142-186 | The rows that a filter keeps, put together, are cut into exactly those rows again |
| `RowsEvents.RowsEvent.FlashbackData2` | replication/row_event_parser.go:49-201 | The new raw bytes are the untouched prefix with the opposite type and then the images of the rows that match, second before first, or the bare header when a filter matches nothing; the decoded rows, the row count and the match count follow the same rows; a failing decompression changes no type |
| `RowsEvents.RowsEvent.Conclude` | replication/row_event_parser.go:188-200 | What follows the row loop: the cut without a match, the exchange of decoded rows |
| `RowsEvents.RowsEvent.RewriteRows` | replication/row_event_parser.go:138-187 | The row loop fails exactly when the data cannot be cut into images, and otherwise appends exactly the swapped images of the kept rows |
| `RowsEvents.RowsEvent.FlashbackTurn` | replication/row_event_parser.go:142-186 | One row: what is appended and which decoded rows stay, with and without a match |
| `RowsEvents.RowsEvent.FilterLast` | replication/row_event_parser.go:147-155 | The filter converts the last decoded row in place and counts a match exactly when its predicate holds |
| `RowsEvents.SwapRows` | replication/row_event_parser.go:192-199 | The exchange loop swaps each pair of decoded rows |
| `RowsEvents.RowsEvent.DecodeImage` | replication/row_event.go:1214-1294 | The mutating image decoder appends exactly the image its bytes denote and returns the bytes consumed; on an error it appends nothing |
| `RowsEvents.ReadColumns` | replication/row_event.go:1251-1289 | The column loop with its two counters reads what the recursive definition reads, null bits by rank among the present columns |
| `RowsEvents.RowsEvent.DecodeData` | replication/row_event.go:1105-1167 | The row loop leaves exactly the rows and skipped columns that the data denotes, or fails exactly when it denotes none; after a decompression the data is the body with its header in front, read as rows |
| `RowsEvents.RowsEvent.DecodeRows` | replication/row_event.go:1130-1166 | The row loop alone |
| `RowsEvents.RowsEvent.DecodeTurn` | replication/row_event.go:1150-1164 | One turn appends one image, or two for an update |
| `RowsEvents.BytesRead` | replication/row_event.go:1105-1115 | Which bytes the row loop starts on, with and without compression |
| `RowsEvents.BytesReplaceWithIndex` | replication/event_ext.go:5-15 | For every range and buffer: what the two appends write in place, and when they panic |
| `RowsEvents.SameLengthReplaces` | replication/event_ext.go:5-15 | A buffer as long as its range replaces exactly the range |
| `RowsEvents.FinishEvent` | replication/parser_ext.go:675-688 | Time stamp, checksum and size, patched in place, give the finished event |
| `RowsEvents.FinishedReads` | replication/parser_ext.go:675-688 | Its size field at bytes 9 to 13 equals its length with the checksum, the time stamp is set when asked for, and no other byte changes |
| `RowImage.ValueRowsRoundTrip` | replication/row_event.go:1105-1167 | For every bitmap and list of rows with NULLs, the row loop with decodeValue returns exactly those rows and consumes exactly their bytes, if and only if some image of a row holds a column |
| `RowImage.RowsRoundTrip` | replication/row_event.go:1105-1167 | The same for any value codec that round-trips |
| `RowImage.ImageRoundTrip` | replication/row_event.go:1214-1294 | An encoded image in front of anything is read back whole: values, nils and the columns not held |
| `RowImage.NothingHeld` | replication/row_event.go:1214-1294 | Without held columns every event body is empty, so rows cannot be told |
| `RowImage.ValueCodecIsFaithful` | replication/row_event.go:1312-1540 | decodeValue round-trips every storable value of every modelled column type and looks at no byte beyond its own |
| `Bits.CountPresent` | replication/row_event.go:1237-1244 | The byte-wise count with one masked byte at the end is the number of present columns |
| `Bits.PackedBit` | replication/row_event.go:1204-1212 | Bit i of a packed bitmap is flag i |
| `RowValue.DecodeEncode` | replication/row_event.go:1312-1540 | Every value a column can hold, of every modelled type and metadata, is decoded from its binlog form and exactly that form is consumed |
| `RowValue.DecodeLocal` | replication/row_event.go:1312-1540 | Whatever is decoded depends only on the bytes consumed, on malformed data as well |
| `SqlColumns.LayoutRead` | replication/row_event.go:1315-1331 | The real type and the length of CHAR, ENUM and SET, packed into the metadata as a server packs them, are read back up to 1023 bytes |
| `SqlColumns.CharRead` | replication/row_event.go:1315-1331 | CHAR of every declared length: one byte of length, or two from 256 bytes on |
| `SqlColumns.VarcharRead` | replication/row_event.go:1483-1486 | The same for VARCHAR |
| `SqlColumns.IntegerRead` | replication/row_event.go:1336-1370 | TINYINT to BIGINT are types 1, 2, 9, 3 and 8 of 1, 2, 3, 4 and 8 bytes, signed or not |
| `SqlColumns.RealRead` | replication/row_event.go:1375-1380 | FLOAT and DOUBLE are types 4 and 5 of 4 and 8 bytes |
| `SqlColumns.NumericRead` | replication/row_event.go:1371-1374 | A DECIMAL is read with the precision and the scale of its column |
| `SqlColumns.BitRead` | replication/row_event.go:1381-1385 | BIT(n) is (n + 7) / 8 bytes, the highest first |
| `SqlColumns.EnumRead` | replication/row_event.go:1464-1475 | An ENUM takes one byte, or two from 256 members on |
| `SqlColumns.SetRead` | replication/row_event.go:1476-1480 | A SET of up to 64 members is read at the size its metadata gives |
| `SqlColumns.BlobRead` | replication/row_event.go:1481-1482 | The four kinds of BLOB have lengths of one to four bytes |
| `SqlColumns.JsonRead` | replication/row_event.go:1489-1526 | A document has a length of four bytes |
| `SqlColumns.TimestampRead` | replication/row_event.go:1733-1759 | Four bytes of seconds and half a byte for each digit of the fraction, rounded up, in units of 10000, 100 or 1 microseconds |
| `SqlColumns.OldTimestampRead` | replication/row_event.go:1386-1394 | TIMESTAMP before fractions: four bytes, the lowest first |
| `SqlColumns.DatetimeRead` | replication/row_event.go:1761-1825 | Bit fields of 17, 5, 5, 6 and 6 bits, biased, then the same fraction |
| `SqlColumns.TimeRead` | replication/row_event.go:1445-1446 | TIME(fsp) is read as its own format says |
| `SqlColumns.FractionsAre` | replication/row_event.go:1733-1790 | A second holds 100 units for each byte of its fraction, and a byte holds two digits |
| `SqlColumns.OtherTypes` | replication/row_event.go:1333-1534 | The numbers of the types without metadata and of those before server 5.6.4 |
| `SqlColumns.UnknownTypes` | replication/row_event.go:1535-1536 | No other type is read |
| `SqlColumns.BlobTypes` | replication/row_event.go:1481-1488 | GEOMETRY and VECTOR are read as BLOB is; the number of JSON |
| `SqlColumns.BadMetadata` | replication/row_event.go:1381-1482 | Sizes that no server writes are refused for ENUM, SET and BLOB |
| `RowValue.NegativeMoment` | replication/row_event.go:1791-1825 | A negative stored DATETIME is read as its distance from zero, less one when it has a fraction |
| `FlashbackFiles.FlashbackWriter.constructor` | pkg/writer.go:141-155 | A new writer holds no writes and one empty part |
| `FlashbackFiles.FlashbackWriter.Write` | pkg/writer.go:55-84 | A write joins the history of writes; the cache is spilled to a part exactly when it reaches the limit; parts and cache together always hold the history reversed |
| `FlashbackFiles.FlashbackWriter.Next` | pkg/writer.go:86-98 | The spilled cache is forgotten and a new, distinct part begins |
| `FlashbackFiles.FlashbackWriter.Close` | pkg/writer.go:108-139 | For every sequence of writes and every cache size the merged output is header, writes in reverse order, footer, and exactly the part files are gone; without an output the parts hold the reversal |
| `FlashbackFiles.FlashbackWriter.MergeParts` | pkg/writer.go:120-137 | Parts are appended and removed from the last to the first |
| `FlashbackFiles.PartNameIs` | pkg/writer.go:90 | The name of a part is the prefix, its number in four digits and the suffix |
| `PackedDecimal.DecodeEncode` | replication/row_event.go:1580-1667 | For every precision, scale and signed value, decoding the packed form in front of anything gives exactly the value's text with all its fraction digits, and the size in bytes |
| `PackedDecimal.EveryDecimalIsStorable` | replication/row_event.go:1557-1600 | Every pair of digit strings of the declared lengths is some stored value, so the round trip misses none |
| `PackedDecimal.RenderedIntegerValue` | replication/row_event.go:1612-1637 | Dropping leading zeros keeps the number |
| `PackedDecimal.GroupBound` | replication/row_event.go:1557-1578 | The bytes of a group of k digits are the fewest that leave their top bit free |
| `PackedDecimal.DecodeDecimal` | replication/row_event.go:1580-1667 | The loop with its copied buffer and cursor computes the decoding above, errors included |
| `PackedDecimal.ScaleAbovePrecision` | replication/row_event.go:1580-1592 | With a scale above the precision the buffer is always shorter than the fraction needs, so such metadata never decodes |
| `PackedDecimal.ReadGroups` | replication/row_event.go:1620-1648 | The loop over nine-digit groups |
| `PackedDecimal.ReadIntegral` | replication/row_event.go:1612-1637 | Sign and integer digits, leading zeros dropped across groups |
| `PackedDecimal.ReadFraction` | replication/row_event.go:1639-1659 | The point and the padded fraction digits |
| `Time2Column.DecodeEncode` | replication/row_event.go:1827-1909 | Every signed time at every precision from 0 to 6 comes back with sign, hour, minute, second and fraction, reversed negative fractions included |
| `Time2Column.DiskOrder` | replication/row_event.go:1841-1886 | The stored bytes order as the times do, for both signs: what the bias and the reversed fractions are for |
| `Time2Column.DecodesExactly` | replication/row_event.go:1827-1909 | Which bytes are read as a time, the ranges of the fields of all of them, and what a precision above six does |
| `Jsonb.DecodeEncoded` | replication/json_binary.go:182-350 | Every byte string that encodes a document under the format's offset tables, small or large, nested to any depth, decodes to that document with keys in stored order |
| `Jsonb.InlineFits` | replication/json_binary.go:341-350 | A value lies inside its entry exactly when it has a fixed size within that of an offset; no container does |
| `Jsonb.ScalarsAre` | replication/json_binary.go:182-231 | Conversely: the type code of every scalar that is decoded, in numbers, and the bytes of every scalar of fixed size |
| `Jsonb.SizesAre` | replication/json_binary.go:116-146 | Sizes of offsets, entries, tables and headers of both layouts, in numbers |
| `Jsonb.DecodedHeader` | replication/json_binary.go:233-292 | Conversely an object or array is only decoded from data whose count, size and key entries are in order |
| `Jsonb.IgnoringKeeps` | replication/json_binary.go:148-180 | With errors ignored no document is refused, and those that decode without it decode alike |
| `Jsonb.LengthsAre` | replication/json_binary.go:599-625 | A variable length takes at most five bytes and is below 2^32 |
| `JsonbEncoder.BodyEncodes` | replication/json_binary.go:233-339 | The format is inhabited: every document whose sizes fit has an encoding in the layouts it asks for |
| `JsonbEncoder.DecodeEncodeDocument` | replication/json_binary.go:148-350 | Writing any such document and reading it back, with anything after it |
| `JsonbTermination.LoopsExactlyOnComingBack` | replication/json_binary.go:294-316 | For every input, the decoder fails to return if and only if some chain of entries, one container inside the other, comes back to a type already open on the same data, every offset since then being zero |
| `JsonbTermination.ForwardOffsetsReturn` | replication/json_binary.go:309-315 | If no entry for a container, at any depth, has offset zero, every call returns, on malformed data as well |
| `JsonbTermination.LoopsExactlyWhenUnbounded` | replication/json_binary.go:182-339 | Not returning is not being done at any depth of the recursion as the source makes it |
| `JsonbTermination.CheckIsEnough` | replication/json_binary.go:276-315 | If value offsets had to lie past the header like key offsets, every call would return, and every value then accepted is decoded as it is now |
| `JsonbTermination.SelfReference` | replication/json_binary.go:276-315 | Eight bytes on which the decoder never returns |
| `JsonbReader.DecodeJSONBinary` | replication/json_binary.go:148-180 | The object with the sticky error computes the decoding function on every input on which that returns |
| `JsonbReader.Decoder.DecodeValue` | replication/json_binary.go:182-231 | The error is set exactly when the value is malformed or was set before; otherwise the value is the decoded one |
| `JsonbReader.Decoder.DecodeObjectOrArray` | replication/json_binary.go:233-339 | The same for containers |
| `JsonbReader.Decoder.DecodeKeys` | replication/json_binary.go:267-288 | The key loop |
| `JsonbReader.Decoder.DecodeEntry` | replication/json_binary.go:296-315 | One turn of the value loop: inline or at its offset |
| `JsonbReader.Decoder.DecodeValues` | replication/json_binary.go:294-320 | The value loop goes on after an error, and the error stays |
| `JsonbReader.DecodeVariableLength` | replication/json_binary.go:599-625 | Seven bits a byte, low bits first, at most five bytes |
| `Jsonb.BytesRoundTrip` | replication/json_binary.go:453-468 | A length-prefixed string is read back from in front of anything |
| `Serialization.UnsignedRoundTrip` | serialization/serialization.go:242-265 | An unsigned integer is read back exactly when it is below 2^56 |
| `Serialization.SignedRoundTrip` | serialization/serialization.go:242-265 | A signed integer is read back exactly when it lies in [-2^55, 2^55) |
| `Serialization.ReadNineBytes` | serialization/serialization.go:242-261 | What the reader makes of the nine-byte form |
| `Serialization.FixedRoundTrip` | serialization/serialization.go:95-126 | Every non-empty byte string survives the fixed-length format, each byte in one or two |
| `Serialization.DecodeFixed` | serialization/serialization.go:95-126 | The loop with its late length test computes the reading function |
| `Serialization.StringRoundTrip` | serialization/serialization.go:179-192 | A string is read back exactly when it is shorter than 128 bytes |
| `Serialization.FixedCut` | serialization/serialization.go:95-126 | A fixed-length value that ends early anywhere is refused as truncated |
| `Serialization.StringCut` | serialization/serialization.go:181-192 | So is a string |
| `Serialization.NumberCut` | serialization/serialization.go:242-265 | And a number of any length |
| `Serialization.UnknownSecondByte` | serialization/serialization.go:107-116 | A second byte other than 2 and 3 is refused |
| `Serialization.FieldsRoundTrip` | serialization/serialization.go:219-233 | Whatever subset of the fields a message carries, numbered below 128, each value that fits comes back in its own slot and the others stay empty |
| `Serialization.RecoveredFields` | serialization/serialization.go:219-233 | Fields that come back were all numbered below 128 and fit |
| `Serialization.RecoveredFits` | serialization/serialization.go:95-192 | A field value that comes back fits its type |
| `Serialization.MessageRoundTrip` | serialization/serialization.go:198-240 | A whole message written with variable-length numbers comes back, version, size, last non-ignorable field and each field it carries in its own slot, if and only if those three numbers and the numbers of its fields are below 128 and every value fits |
| `Serialization.FieldDropped` | serialization/serialization.go:214-224 | A message of size 128 with one field: read without an error, the size wrong and the field gone |
| `Serialization.UnmarshalMessage` | serialization/serialization.go:198-240 | The header bytes and the loop over wanted fields compute that decoding, errors included |
| `Serialization.UnmarshalFields` | serialization/serialization.go:219-233 | The loop with its one cursor |
| `DumpValues.ParseInvertsWriting` | dump/parser.go:103-159 | Parsing the comma-joined list of any quoted escaped strings and bare tokens returns the list, in order |
| `DumpValues.UnescapeInvertsEscape` | dump/parser.go:161-201 | Unescaping undoes escaping for every byte string, in front of anything |
| `DumpValues.EscapedBytes` | mysql/util.go:639-658 | Exactly nine bytes are escaped |
| `DumpValues.UnclosedFails` | dump/parser.go:103-159 | A quote that is not closed is an error after any list of values |
| `DumpValues.ParseValues` | dump/parser.go:103-159 | The index loops compute the parse, the unclosed quote included |
| `DumpValues.UnescapeString` | dump/parser.go:161-182 | The loop computes the unescaped text |
| `DumpValues.Escape` | mysql/util.go:560-572 | The loop computes the escaped text |
| `Bytes.FixedLengthInt` | mysql/util.go:328-335 | The shifting loop is the little-endian number modulo 2^64 |
| `Bytes.BFixedLengthInt` | mysql/util.go:337-343 | The shifting loop is the big-endian number modulo 2^64 |
| `Bytes.LittleEndianRoundTrip` | mysql/util.go:328-335 | n bytes hold a number exactly when it is below 256^n |
| `Bytes.LengthEncodedIntRoundTrip` | mysql/util.go:345-398 | Every 64-bit number is read back from its length-encoded form with its length |
| `Bytes.LengthEncodedStringRoundTrip` | mysql/util.go:400-414 | Every length-encoded string is read back from in front of anything |
| `Intervals.Sort` | mysql/mysql_interval.go:68-82 | In place: sorted and a permutation, equal to one fixed arrangement |
| `Intervals.SortingIsDetermined` | mysql/mysql_interval.go:68-82 | Any sorting algorithm gives that arrangement, equal keys included |
| `Intervals.Normalize` | mysql/mysql_interval.go:84-109 | The argument is left sorted, and the pass over it computes the normal form |
| `Intervals.NormalDenotes` | mysql/mysql_interval.go:84-109 | Normalising keeps the set of numbers, for every slice |
| `Intervals.NormalIsNormal` | mysql/mysql_interval.go:84-109 | Non-empty intervals come out sorted and separated by gaps |
| `Intervals.NormalIsUnique` | mysql/mysql_interval.go:128-130 | On normal slices equality of slices is equality of sets |
| `Intervals.Search` | mysql/mysql_interval.go:115-117 | The binary search finds the first interval that reaches the start |
| `Intervals.Contain` | mysql/mysql_interval.go:113-126 | On a normal slice and any intervals in any order: true exactly when every number is included and every interval without numbers touches the slice |
| `Intervals.NonEmptyContain` | mysql/mysql_interval.go:113-126 | For intervals with numbers the second condition is void, so inclusion is decided |
| `Intervals.EmptyIntervalRefused` | mysql/mysql_interval.go:113-126 | An interval without numbers that is refused |
| `Intervals.PrintRoundTrip` | mysql/mysql_interval.go:23-61 | A printed interval is parsed back |
| `GtidSet.AddInserts` | mysql/mysql_gtid.go:204-215 | Below the largest 64-bit number, adding inserts exactly one triple and keeps the set normal |
| `GtidSet.AddFailsAtMax` | mysql/mysql_gtid.go:204-215 | The largest 64-bit number is in the set afterwards exactly when it was before |
| `GtidSet.UpdateIsUnion` | mysql/mysql_gtid.go:364-388 | Update denotes union |
| `GtidSet.SameIsEqual` | mysql/mysql_gtid.go:304-324 | Well-formed maps are equal exactly when they denote the same triples |
| `GtidSet.SubsetByEntries` | mysql/mysql_gtid.go:229-249 | Inclusion of triples is inclusion entry by entry |
| `GtidSet.MysqlGTIDSet.constructor` | mysql/mysql_gtid.go:68-70 | The empty set |
| `GtidSet.MysqlGTIDSet.AddGTIDWithTag` | mysql/mysql_gtid.go:204-215 | The object then holds the set with the number added under that tag |
| `GtidSet.MysqlGTIDSet.AddGTID` | mysql/mysql_gtid.go:200-202 | The same under the empty tag |
| `GtidSet.MysqlGTIDSet.Clone` | mysql/mysql_gtid.go:217-227 | A new object with the same set |
| `GtidSet.MysqlGTIDSet.Update` | mysql/mysql_gtid.go:364-388 | The loops over servers and tags, in any order, leave the union |
| `GtidSet.MysqlGTIDSet.Contains` | mysql/mysql_gtid.go:229-249 | True exactly when the other set is a subset, whatever the map order |
| `GtidSet.MysqlGTIDSet.Equals` | mysql/mysql_gtid.go:304-324 | True exactly when the two sets denote the same triples |
| `GtidBinary.DecodeEncode` | mysql/mysql_gtid.go:72-148 | Every well-formed set with fewer than 2^48 entries is decoded from its bytes with none left over, in the classic and in the tagged format |
| `GtidBinary.EqualSetsEqualBytes` | mysql/mysql_gtid.go:251-302 | Sets with the same triples have identical bytes |
| `GtidBinary.CountRoundTrip` | mysql/mysql_gtid.go:399-428 | Count and format survive their eight bytes |
| `GtidBinary.PanicsExactly` | mysql/mysql_gtid.go:110-120 | The decoder panics if and only if, after some number of sound entries, an interval count passes its test and the end it claims overflows an int |
| `GtidExact.ExtendedIsRefused` | mysql/mysql_gtid.go:72-148 | A form that decodes is refused with anything behind it |
| `GtidExact.CutIsRefused` | mysql/mysql_gtid.go:72-148 | And when it is cut anywhere |
| `GtidExact.EntriesAreWhole` | mysql/mysql_gtid.go:72-148 | An entry that is read has all sixteen bytes of its uuid and at least one interval |
| `GtidExact.TagForm` | mysql/mysql_gtid.go:38-44 | A tag of at most 32 bytes is read back from what is written of it, and of a longer one nothing is written |
| `GtidBinary.DecodedWithoutPanic` | mysql/mysql_gtid.go:72-148 | Whatever is decoded was decoded without a panic |
| `GtidBinary.HugeCountPanics` | mysql/mysql_gtid.go:114-120 | 32 bytes on which the decoder panics |
| `GtidBinary.IncreasingIsUnique` | mysql/mysql_gtid.go:256-275 | Sorting makes the order in which map keys were collected irrelevant |
| `GtidBinary.LessIs` | mysql/mysql_gtid.go:256-275 | The order of servers and tags is that of the first byte in which they differ |
| `GtidBinary.CollectSorted` | mysql/mysql_gtid.go:256-275 | Keys collected in any order and sorted are the sorted keys |
| `GtidBinary.CountSids` | mysql/mysql_gtid.go:254-268 | The counting loops find the number of entries and whether any has a tag |
| `GtidBinary.Encode` | mysql/mysql_gtid.go:251-302 | The loops write the encoding whatever the map order |
| `GtidBinary.DecodeMysqlGTIDSet` | mysql/mysql_gtid.go:72-148 | The cursor loop computes the decoding on every input, errors and the panic included |
| `GtidBinary.DecodeEntry` | mysql/mysql_gtid.go:81-131 | The body of the loop: one entry and the position after it |
| `GtidBinary.DecodeCount` | mysql/mysql_gtid.go:106-119 | The tests of the interval count, with the sum of 64-bit ints |
| `GtidText.ParsePrinted` | mysql/mysql_gtid.go:150-198 | Parsing the printed form of a set gives the set back if and only if its slices are non-empty, normal, of numbers from zero up to below the 64-bit maximum, and every tag is empty or at most 32 lower-case letters, digits and underscores that do not start with a digit |
| `GtidText.ParsedIsText` | mysql/mysql_gtid.go:150-198 | Whatever text is parsed, the set is such a set |
| `GtidText.DigitTagIsLost` | mysql/mysql_gtid.go:23 | No set with a tag that starts with a digit is parsed back |
| `GtidMeaning.ParseDenotes` | mysql/mysql_gtid.go:150-198 | The set parsed from any text holds exactly the numbers that its tokens name: those of an interval, under the last tag before it, of the server of its part |
| `GtidMeaning.ParseAccepts` | mysql/mysql_gtid.go:150-198 | A text is accepted if and only if every part is a server followed by tags and intervals, and every tag has a number under its server in that part or before it |
| `GtidMeaning.SingleRead` | mysql/mysql_interval.go:23-52 | One number is read up to below the 64-bit maximum |
| `GtidMeaning.RangeRead` | mysql/mysql_interval.go:23-52 | Two numbers around a dash are read exactly when they are in order and below the 64-bit maximum |
| `GtidMeaning.NumberRead` | mysql/mysql_interval.go:23-52 | A plus sign is allowed |
| `GtidMeaning.TagRead` | mysql/mysql_gtid.go:23 | A tag is read in either case and with blanks around it |
| `GtidMeaning.NewTagRead` | mysql/mysql_gtid.go:51-57 | What NewTag makes of a tag is the tag that the text names |
| `GtidMeaning.UuidRead` | mysql/mysql_gtid.go:150-198 | A uuid is read in either case, and between any two characters |
| `GtidMeaning.BareUuidRead` | mysql/mysql_gtid.go:150-198 | And without its dashes |
| `GtidMeaning.HexDigits` | mysql/mysql_gtid.go:342 | A uuid is printed in lower-case hexadecimal digits |
| `GtidText.UuidRoundTrip` | mysql/mysql_gtid.go:150-198 | A printed uuid is parsed back |
| `GtidText.TrimsAgree` | mysql/mysql_gtid.go:23-58 | TrimSpace takes off a tag what the regular expression allows around it, though it knows one more blank |
| `GtidText.PrintSet` | mysql/mysql_gtid.go:330-362 | The loops print servers, tags and intervals in sorted order, for every set |
| `GtidText.PrintTags` | mysql/mysql_gtid.go:330-362 | The loop over the tags of one server |
| `GtidText.ReadTokens` | mysql/mysql_gtid.go:150-198 | The token loop with its current tag computes the parse of one server |
| `GtidText.ParseMysqlGTIDSet` | mysql/mysql_gtid.go:150-198 | The loop over servers computes the parse on every text, errors included |
| `GtidResume.EveryRunIsSafe` | replication/binlogsyncer.go:724-791 | After every sequence of deliveries and lost connections: all that prevGset gained was received whole, no transaction was skipped, a reconnect repeats at most the last begun one, currGset is prevGset plus the last begun, and a drained stream was received whole |
| `GtidResume.SafeExactlyWhenTagsKept` | replication/binlogsyncer.go:923-983 | All runs over a log are safe if and only if no tagged transaction is directly followed by a plain one |
| `GtidResume.SkippedTransaction` | replication/binlogsyncer.go:961 | A log and a run on which a transaction is never received |
| `GtidLoss.LosesExactlyWhenNamed` | replication/binlogsyncer.go:943-962 | For every log: some run loses a transaction for good, whatever follows, if and only if a tag is dropped and the GTID left is that of a later transaction not yet received whole |
| `GtidLoss.HarmlessRunsFinish` | replication/binlogsyncer.go:724-791 | Otherwise every run that drains its stream has received every transaction whole, dropped tags or not |
| `GtidLoss.NothingLost` | replication/binlogsyncer.go:724-791 | Otherwise every transaction can still be received from every state of every run |
| `GtidLoss.NamedIsLost` | replication/binlogsyncer.go:961 | The run that loses a transaction so named |
| `GtidCommit.CommitSetsResumeExactly` | replication/binlogsyncer.go:1001-1004 | Over every run with connections lost anywhere, a new client started from the set handed out with a commit event is sent exactly the transactions not yet received whole, if and only if no tagged transaction is directly followed by a plain one |
| `GtidCommit.RepeatsNext` | replication/binlogsyncer.go:961 | The run on which a set handed out makes a transaction come twice |
| `GtidCommit.SkipsNext` | replication/binlogsyncer.go:961 | The run on which a set handed out makes a transaction never come |
| `GtidCommit.EarlySetSkips` | replication/binlogsyncer.go:1006-1009 | The set handed out with any event of a transaction, the query event that begins it included, holds the transaction: a new client started from it never receives it |
| `GtidResume.BinlogSyncer.StartSyncGTID` | replication/binlogsyncer.go:516-555 | The caller's own set object becomes prevGset and is what the server is asked with |
| `GtidResume.BinlogSyncer.RetrySync` | replication/binlogsyncer.go:724-791 | The object's fields take the reconnect step of the protocol |
| `GtidResume.BinlogSyncer.GetCurrentGtidSet` | replication/binlogsyncer.go:1050-1056 | What is handed out is a new object with the current set, so later events do not change it |
| `GtidResume.BinlogSyncer.HandleGtidEvent` | replication/binlogsyncer.go:942-983 | The object's sets take the GTID step of the protocol, with prevGset updated in place and currGset a separate object |
| `PacketFraming.UnframeFrames` | packet/conn.go:242-343 | For every payload length, exact multiples of the maximum included, reading the frames gives the payload, the advanced sequence number and the untouched rest |
| `PacketFraming.FramesAre` | packet/conn.go:289-343 | A payload takes one frame for every 2^24 - 1 bytes and one more, each with four bytes of header |
| `PacketFraming.WrongSequence` | packet/conn.go:242-287 | Frames that start at another number than expected are refused |
| `PacketFraming.CutShort` | packet/conn.go:242-287 | Frames that end early anywhere are refused |
| `PacketFraming.Conn.WritePacket` | packet/conn.go:289-343 | Headers written over the caller's buffer between chunks still send the frames of the original payload |
| `PacketFraming.Conn.CopyN` | packet/conn.go:191-240 | Exactly n bytes through a bounded buffer, or failure exactly when fewer are there |
| `PacketFraming.Conn.ReadPacketTo` | packet/conn.go:242-287 | The recursive reader computes the unframing, with both its errors |
| `PacketFraming.SendAndReceive` | packet/conn.go:242-343 | What one side sends its peer receives, and both counters end equal |
| `PacketFraming.HeaderBytes` | packet/conn.go:292-316 | The shifted length bytes are the little-endian length |
| `StmtExecute.EveryCallCrosses` | server/stmt.go:100-181 | Over any sequence of executions and resets of a statement, with handlers that fail anywhere: every execution gives the handler the client's arguments if and only if the client could foresee it from its own calls and their outcomes |
| `StmtExecute.ArgumentsCross` | server/stmt.go:100-313 | For every argument list, every set of query attributes and whatever the statement holds: the handler is given the client's arguments if and only if types are seen and typed bytes have a type the server reads as text, or none are seen and the statement holds the arguments already; nils alone need a reset statement |
| `StmtExecute.ResetStatementCrosses` | server/stmt.go:36-38 | With a reset statement and no attributes only the types of typed bytes matter |
| `StmtExecute.PlainRunsCross` | server/stmt.go:100-181 | Without refused calls and attributes every execution crosses |
| `StmtExecute.StaleArgument` | server/stmt.go:174-178 | A refused call with any argument, then a call with nil: the handler is given the old argument |
| `StmtExecute.AttributeSpills` | client/stmt.go:80-87 | Eight arguments and one attribute: the handler is given eight nils |
| `StmtExecute.HandledIsBound` | server/stmt.go:166-174 | The handler is given what the statement then holds |
| `StmtExecute.WrittenIsBound` | server/stmt.go:183-313 | Binding that succeeds overwrites every argument from the one it starts at |
| `StmtExecute.FailedBinding` | server/stmt.go:183-313 | Binding that fails writes the arguments before the first one it cannot read, and keeps the others as they were |
| `StmtExecute.TypesAre` | client/stmt.go:94-173 | The type and the flag of every kind of argument, in the numbers of the protocol |
| `StmtExecute.ReadsAs` | server/stmt.go:211-310 | Which types the server reads, at which width, in the same numbers, and that it refuses all others |
| `StmtExecute.NullText` | server/stmt.go:283-306 | A text of the one byte 0xfb is read as NULL |
| `StmtExecute.FlagsAre` | server/stmt.go:115-137 | Of the flags only the one for the parameter count is accepted |
| `StmtRefusals.CutPacketIsRefused` | server/stmt.go:100-313 | A packet with bound arguments that ends early anywhere is refused |
| `StmtAttributes.AttributesCross` | client/stmt.go:175-228 | With the capability, a reader of the protocol gets arguments and named attributes back in order if and only if typed texts have a type read as one, or all arguments are nil and there are no attributes |
| `StmtExecute.Write` | client/stmt.go:61-236 | The client's loops produce the packet, attributes included, or fail exactly on a wrong count or an unsupported type |
| `StmtExecute.FillParams` | client/stmt.go:86-173 | The loop that sets null bits and collects types, flags and values |
| `StmtExecute.FillAttributes` | client/stmt.go:175-181 | The loop over the query attributes |
| `StmtExecute.Stmt.ResetParams` | server/stmt.go:36-38 | A fresh slice of nils |
| `StmtExecute.Stmt.BindStmtArgs` | server/stmt.go:183-313 | The loop with its cursor fails exactly when the packet denotes nothing, and leaves what it wrote before in either case |
| `StmtExecute.Stmt.TakeParams` | server/stmt.go:115-174 | The arguments that the handler is called with, and what the statement holds |
| `StmtExecute.Stmt.Execute` | server/stmt.go:115-181 | The statement is reset exactly when the handler is called and returns no error |
| `StmtExecute.Conn.HandleStmtExecute` | server/stmt.go:100-181 | An unknown statement or a short packet fails and changes nothing; otherwise the named statement, and no other, takes the execution |
| `StmtExecute.Conn.HandleStmtReset` | server/stmt.go:347-364 | The named statement, and no other, is reset |
| `StmtExecute.Perform` | client/stmt.go:61-236 | One command, written by the client and handled by the server's object |
| `StmtExecute.Converse` | server/stmt.go:100-181 | A whole life of a statement through both: all calls cross exactly when the client could foresee it |
| `Pool.EveryRunConserves` | client/pool.go:235-583 | Over every interleaving of all goroutines' locked sections: no connection has two owners, TotalCount equals all that is idle, lent, reserved, being rechecked or in a batch, idle stays within maxIdle and the slice's capacity |
| `Pool.NoneIsLost` | client/pool.go:235-583 | Over every interleaving, a connection that was ever made is held by exactly one party or was closed exactly once |
| `Pool.StepTraces` | client/pool.go:235-583 | What each step does to the holders of each connection, exactly: which are closed by dropping, failing, closing or a full idle slice, and that none is lost or gained otherwise |
| `Pool.PutAllIs` | client/pool.go:276-283 | Connections put back are kept while there is room, in order, and counted off from then on |
| `Pool.CloseCount` | client/pool.go:485-525 | A tenth of the idle connections is closed, at least one, exactly when more than minAlive + 1 are counted and some are idle |
| `Pool.SpawnCount` | client/pool.go:462-483 | What is missing to minAlive is started, at most five at once |
| `Pool.TotalIsBounded` | client/pool.go:285-343 | TotalCount is never negative and never exceeds maxAlive + minAlive + min(minAlive, 5) |
| `Pool.PeakIsReached` | client/pool.go:462-555 | A run that reaches exactly that, for every configuration: a recheck starts a full batch while nothing is counted, clients are lent maxAlive, then both batches count |
| `Pool.PeakIsExact` | client/pool.go:285-343 | The bounds that hold on every run are exactly those from that number on |
| `Pool.LimitsAreConfigured` | client/pool.go:102-110 | The limits are those asked for if in order, else the nearest under the same maxAlive; the constructor reaches exactly the configurations the theorems are about |
| `Pool.MaxAliveHoldsExactly` | client/pool.go:155-159 | The documented bound, maxAlive + 1, holds on every run if and only if minAlive is zero; so does maxAlive |
| `Pool.ClosedStays` | client/pool.go:571-584 | After Close the idle list is empty in every later state |
| `Pool.ClosedIsFinal` | client/pool.go:571-584 | On every run, a closed pool has both loops ended and nothing idle, being checked, waiting to be closed or being spawned |
| `Pool.IdleComesFirst` | client/pool.go:255-311 | While a connection is idle nobody begins to wait and only a batch makes a new one |
| `Pool.RestsWhenYoung` | client/pool.go:376-400 | The recheck does nothing exactly when no idle connection is old |
| `PoolProgress.ProducerStops` | client/pool.go:285-343 | After the context is cancelled the producer can end by itself if and only if it does not sleep for want of a free connection |
| `PoolProgress.RecheckCanEnd` | client/pool.go:376-400 | From every reachable state after that the recheck loop, its pings and the batch it started can run to their end |
| `PoolProgress.ClientsGoOn` | client/pool.go:223-275 | A client takes an idle connection or waits; it may give up waiting, and return or drop what it was lent, at any time |
| `Pool.StepKeeps` | client/pool.go:235-583 | Every enabled step of every goroutine keeps the invariant |
| `Pool.SweepDivides` | client/pool.go:401-432 | The swap-remove sweep takes exactly the old connections, leaves exactly the young ones and loses none |
| `Pool.Limits` | client/pool.go:102-110 | The limits are brought into order |
| `PoolSections.Synchro.GetIdleConnectionUnsafe` | client/pool.go:362-374 | The last idle connection, if any |
| `PoolSections.Synchro.PutConnectionUnsafe` | client/pool.go:276-283 | Appended while there is room; otherwise closed and counted off |
| `PoolSections.Synchro.PutBatch` | client/pool.go:535-555 | A whole batch under one lock |
| `PoolSections.Synchro.GetOldIdleConnections` | client/pool.go:401-432 | The in-place loop computes the sweep |
| `PoolSections.Synchro.CloseIdleConnectionsIfCan` | client/pool.go:485-525 | What is cut off the end, never below minAlive |
| `PoolSections.Synchro.CloseIdle` | client/pool.go:571-584 | Idle connections are counted off and the slice is dropped |

## Left out

- Compressed packets and zlib: foreign codecs. Decompression of row data is any function that may fail, and the end-to-end theorems are about events that are not compressed.
- Checksums: the CRC32 value is arbitrary bytes. It is computed before the size field is patched, and nothing is claimed about it.
- `convUpdateToWrite`: the rewritten event would keep the second column bitmap of an update.
- Partial JSON updates and MariaDB row and GTID events.
- `swapFlashbackEventType` and the text layout of printed events: how an event is printed is a parameter of `FlashbackRun.FlashbackStream`.
- Row filters: an arbitrary conversion and an arbitrary predicate on the first image stand for the compiled expression.
- Text rendering of times, floats and JSON. Times are fields, floats are bits, JSON is a tree with its members in stored order.
- JSON opaque values: the type and raw bytes are kept, and decimal, time and date inside them are not decoded further.
- UUID text in the urn form: it holds colons, which the set syntax splits at. Blanks and letter case are those of ASCII.
- File names and positions of the binlog (`nextPos`), semi-synchronous ACK, heartbeats, retry counts and timeouts of `BinlogSyncer`.
- Errors of files and sockets in `FlashbackWriter` and `Conn`: reads end early or succeed, writes succeed.
- Long data and cursors of prepared statements. No server of this package offers the query-attributes capability, so its packets are read as the protocol lays them out.
- Fairness in the pool: which steps are possible is stated, not that a waiting client is ever served. Connection attempts and pings may fail at any time.
- Sockets, TLS, authentication, canal, schema fetching and the command-line programs.
- RowsEvents.RowsEvent.DecodeData: stated for data on which the loop ends; data that never ends (a row without a byte, a JSON value that contains itself) is told by `Hang`.
- RowsEvents.RowsEvent.DecodeImage: stated for data on which decodeValue returns.
- RowsEvents.RowsEvent.FlashbackData2: stated for data on which the loop ends, and for a raw buffer that holds the header and the prefix it keeps.
- RowsEvents.FinishEvent: stated for a buffer longer than the event header, the guard of the branch.
- RowsEvents.BytesReplaceWithIndex: the array is the slice's memory; what lies beyond it is written elsewhere and not seen.
- JsonbReader.DecodeJSONBinary: stated for inputs on which the decoder returns, which `JsonbTermination.LoopsExactlyOnComingBack` characterises.
- JsonbReader.Decoder.DecodeValue: stated for inputs on which the decoder returns.
- RowImage.ImageRoundTrip: a slice that is read past its length but within its capacity counts as a fault.
- PackedDecimal.DecodeDecimal: a scale above the precision is taken as the panic it always ends in.
- Serialization.FieldsRoundTrip: one way only; `Serialization.MessageRoundTrip` is exact.
- Intervals.Contain: stated for a normal slice, as the source's own comment demands.
- GtidBinary.DecodeEncode: stated for tags of at most 32 lower-case bytes and 64-bit numbers, which is what a tag and a number are in the source.
- GtidResume.BinlogSyncer.HandleGtidEvent: stated for numbers below the 64-bit maximum, which no server assigns; `GtidSet.AddFailsAtMax` says what happens there.
- GtidResume.EveryRunIsSafe: one server with one fixed log of distinct GTIDs, none of them the 64-bit maximum; a change of server between connections is not modelled.
- GtidCommit.CommitSetsResumeExactly: every transaction ends with an event of its own, as a commit does, and the new client starts on the same log.
- StmtExecute.ArgumentsCross: for connections without the query-attributes capability; integers come back at the width and sign they were sent with, texts as typed bytes.
- StmtExecute.Converse: the handler's answers are given in advance, one for each call, and it does not keep or change the slice of arguments.
- Pool.EveryRunConserves: sections between lock and unlock are single steps, as are hand-offs through the channel.
