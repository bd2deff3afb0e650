/**
 jsonBinaryDecoder as the source runs it: loops that fill the keys and the
 values, and a sticky error that later calls on the same decoder observe.
 */
module JsonbReader {
  import opened Bytes
  import opened Jsonb

  const NIL := JScalar(NullLiteral)

  /** What the loops have gathered, put in front of what is still to come. */
  function Prepend<T>(done: seq<T>, rest: Decoded<seq<T>>): (r: Decoded<seq<T>>) {
    match rest
    case Ok(more) => Ok(done + more)
    case Bad => Bad
    case Loops => Loops
  }

  lemma PrependStep<T>(done: seq<T>, x: T, rest: Decoded<seq<T>>)
    ensures Prepend(done + [x], rest) == Prepend(done, Prepend([x], rest))
  {
    if rest.Ok? { assert done + [x] + rest.v == done + ([x] + rest.v); }
  }

  lemma PrependNothing<T>(done: seq<T>, rest: Decoded<seq<T>>)
    ensures Prepend([], rest) == rest && Prepend(done, Ok([])) == Ok(done)
  {
    if rest.Ok? { assert [] + rest.v == rest.v; }
    assert done + [] == done;
  }

  lemma KeyFails(data: bytes, small: bool, headerSize: nat, count: nat, i: nat, entry: nat, at: nat, len: nat,
                 keys: seq<bytes>)
    requires i < count && 2 * OffsetSize(small) + KeyEntries(small, count) <= |data|
    requires entry == 2 * OffsetSize(small) + KeyEntries(small, i)
    requires at == Count(data, entry, small)
      && len == FromLE(data[entry + OffsetSize(small)..entry + OffsetSize(small) + 2])
    requires at < headerSize || |data| < at + len
    ensures Prepend(keys, Keys(data, small, headerSize, count, i)) == Bad
  {
  }

  lemma KeyRead(data: bytes, small: bool, headerSize: nat, count: nat, i: nat, entry: nat, at: nat, len: nat,
                keys: seq<bytes>)
    requires i < count && 2 * OffsetSize(small) + KeyEntries(small, count) <= |data|
    requires entry == 2 * OffsetSize(small) + KeyEntries(small, i)
    requires at == Count(data, entry, small)
      && len == FromLE(data[entry + OffsetSize(small)..entry + OffsetSize(small) + 2])
    requires headerSize <= at && at + len <= |data|
    ensures Prepend(keys, Keys(data, small, headerSize, count, i))
      == Prepend(keys + [data[at..at + len]], Keys(data, small, headerSize, count, i + 1))
  {
    PrependStep(keys, data[at..at + len], Keys(data, small, headerSize, count, i + 1));
  }

  lemma ValueRead(data: bytes, small: bool, table: nat, count: nat, i: nat, active: set<byte>, ignore: bool,
                  values: seq<Json>)
    requires i < count && table + ValueEntries(small, count) <= |data|
    ensures var whole := Prepend(values, Values(data, small, table, count, i, active, ignore));
      match Entry(data, small, EntryAt(small, table, i), active, ignore)
      case Bad => whole == Bad
      case Loops => whole == Loops
      case Ok(v) => whole == Prepend(values + [v], Values(data, small, table, count, i + 1, active, ignore))
  {
    var e := Entry(data, small, EntryAt(small, table, i), active, ignore);
    if e.Ok? { PrependStep(values, e.v, Values(data, small, table, count, i + 1, active, ignore)); }
  }

  /** decodeVariableLength; each byte's seven bits lie above all the bits gathered before, so adding is or-ing. */
  method DecodeVariableLength(data: bytes) returns (r: Decoded<(nat, nat)>)
    ensures r == VariableLength(data, 0, 0, 1)
  {
    var maxCount := if |data| < 5 then |data| else 5;
    var pos: nat, length: nat, scale: nat := 0, 0, 1;
    while pos < maxCount
      invariant pos <= maxCount
      invariant VariableLength(data, 0, 0, 1) == VariableLength(data, pos, length, scale)
    {
      var v: nat := data[pos];
      length := length + v % 128 * scale;
      if data[pos] < 128 { return if length > 0xFFFF_FFFF then Bad else Ok((length, pos + 1)); }
      pos, scale := pos + 1, 128 * scale;
    }
    r := Bad;
  }

  class Decoder {
    const ignore: bool
    var failed: bool

    constructor (ignore: bool)
      ensures this.ignore == ignore && !failed
    {
      this.ignore := ignore;
      failed := false;
    }

    /** isDataShort */
    method IsDataShort(data: bytes, expected: nat) returns (short: bool)
      modifies this
      ensures failed == short == (old(failed) || |data| < expected)
    {
      if failed { return true; }
      if |data| < expected { failed := true; }
      short := failed;
    }

    /** The error state after a call that should have produced `r`. */
    ghost predicate Left<T>(wasFailed: bool, r: Decoded<T>)
      reads this
    {
      failed == (wasFailed || r == Bad)
    }

    method DecodeValue(tp: byte, data: bytes, ghost active: set<byte>) returns (v: Json)
      requires failed || Decode(tp, data, active, ignore) != Loops
      modifies this
      ensures Left(old(failed), Decode(tp, data, active, ignore))
      ensures !failed ==> Ok(v) == Decode(tp, data, active, ignore)
      decreases |data|, |CONTAINERS - active|, 1, 0
    {
      if failed { return NIL; }
      if tp in CONTAINERS {
        v := DecodeObjectOrArray(data, IsSmall(tp), IsObject(tp), active);
      } else {
        match DecodeScalar(tp, data) {
          case Ok(s) => v := JScalar(s);
          case Bad =>
            failed := true;
            v := NIL;
        }
      }
    }

    method DecodeObjectOrArray(data: bytes, small: bool, isObject: bool, ghost active: set<byte>) returns (v: Json)
      requires !failed && NodeTag(small, isObject) !in active
      requires Container(NodeTag(small, isObject), data, active, ignore) != Loops
      modifies this
      ensures Left(false, Container(NodeTag(small, isObject), data, active, ignore))
      ensures !failed ==> Ok(v) == Container(NodeTag(small, isObject), data, active, ignore)
      decreases |data|, |CONTAINERS - active|, 0, 0
    {
      v := NIL;
      var offsetSize := OffsetSize(small);
      var short := IsDataShort(data, 2 * offsetSize);
      if short { return; }
      var count, size := Count(data, 0, small), Count(data, offsetSize, small);
      short := IsDataShort(data, size);
      if short {
        if ignore { failed := false; }
        return;
      }
      var headerSize := HeaderSize(small, isObject, count);
      if headerSize > size {
        failed := true;
        return;
      }
      var keys: seq<bytes> := [];
      if isObject { keys := DecodeKeys(data, small, headerSize, count); }
      if failed { return; }
      ghost var tp := NodeTag(small, isObject);
      CardinalityDrops(CONTAINERS - (active + {tp}), CONTAINERS - active);
      var values := DecodeValues(data, small, ValueTable(small, isObject, count), count, active + {tp});
      if failed { return; }
      v := if isObject then JObject(keys, values) else JArray(values);
    }

    /** The loop over the key entries. */
    method DecodeKeys(data: bytes, small: bool, headerSize: nat, count: nat) returns (keys: seq<bytes>)
      requires !failed && 2 * OffsetSize(small) + KeyEntries(small, count) <= |data|
      modifies this
      ensures Left(false, Keys(data, small, headerSize, count, 0))
      ensures !failed ==> Ok(keys) == Keys(data, small, headerSize, count, 0)
    {
      keys := [];
      var i := 0;
      PrependNothing(keys, Keys(data, small, headerSize, count, 0));
      while i < count
        invariant i <= count && !failed
        invariant Keys(data, small, headerSize, count, 0) == Prepend(keys, Keys(data, small, headerSize, count, i))
      {
        var entry := 2 * OffsetSize(small) + KeyEntries(small, i);
        var keyOffset := Count(data, entry, small);
        var keyLength := FromLE(data[entry + OffsetSize(small)..entry + OffsetSize(small) + 2]);
        if keyOffset < headerSize {
          KeyFails(data, small, headerSize, count, i, entry, keyOffset, keyLength, keys);
          failed := true;
          return;
        }
        var short := IsDataShort(data, keyOffset + keyLength);
        if short {
          KeyFails(data, small, headerSize, count, i, entry, keyOffset, keyLength, keys);
          return;
        }
        KeyRead(data, small, headerSize, count, i, entry, keyOffset, keyLength, keys);
        keys := keys + [data[keyOffset..keyOffset + keyLength]];
        i := i + 1;
      }
      PrependNothing(keys, Keys(data, small, headerSize, count, i));
    }

    /** One turn of the loop over the value entries. */
    method DecodeEntry(data: bytes, small: bool, entry: nat, ghost active: set<byte>) returns (v: Json, stop: bool)
      requires entry + 1 + OffsetSize(small) <= |data|
      requires failed || Entry(data, small, entry, active, ignore) != Loops
      modifies this
      ensures Left(old(failed), Entry(data, small, entry, active, ignore))
      ensures !failed ==> Ok(v) == Entry(data, small, entry, active, ignore)
      ensures stop ==> failed
      decreases |data|, |CONTAINERS - active|, 2, 0
    {
      v, stop := NIL, false;
      var tp := data[entry];
      if IsInline(tp, small) {
        v := DecodeValue(tp, data[entry + 1..entry + 1 + OffsetSize(small)], {});
      } else {
        var valueOffset := Count(data, entry + 1, small);
        stop := IsDataShort(data, valueOffset);
        if !stop {
          assert data[0..] == data;
          v := DecodeValue(tp, data[valueOffset..], if valueOffset == 0 then active else {});
        }
      }
    }

    /** The loop over the value entries; after a failure it goes on, and every further call returns at once. */
    method DecodeValues(data: bytes, small: bool, table: nat, count: nat, ghost active: set<byte>)
      returns (values: seq<Json>)
      requires !failed && table + ValueEntries(small, count) <= |data|
      requires Values(data, small, table, count, 0, active, ignore) != Loops
      modifies this
      ensures Left(false, Values(data, small, table, count, 0, active, ignore))
      ensures !failed ==> Ok(values) == Values(data, small, table, count, 0, active, ignore)
      decreases |data|, |CONTAINERS - active|, 3, 0
    {
      values := [];
      var i := 0;
      PrependNothing(values, Values(data, small, table, count, 0, active, ignore));
      while i < count
        invariant i <= count
        invariant Values(data, small, table, count, 0, active, ignore) ==
                  if failed then Bad else Prepend(values, Values(data, small, table, count, i, active, ignore))
      {
        ValueRead(data, small, table, count, i, active, ignore, values);
        var v, stop := DecodeEntry(data, small, EntryAt(small, table, i), active);
        if stop { return; }
        values := values + [v];
        i := i + 1;
      }
      PrependNothing(values, Values(data, small, table, count, i, active, ignore));
    }
  }

  /** decodeJSONBinary up to the rendering of its result. */
  method DecodeJSONBinary(data: bytes, ignore: bool) returns (r: Decoded<Json>)
    requires DecodeDocument(data, ignore) != Loops
    ensures r == DecodeDocument(data, ignore)
  {
    var d := new Decoder(ignore);
    var short := d.IsDataShort(data, 1);
    if short { return if ignore then Ok(NIL) else Bad; }
    var v := d.DecodeValue(data[0], data[1..], {});
    if d.failed { return if ignore then Ok(NIL) else Bad; }
    r := Ok(v);
  }
}
