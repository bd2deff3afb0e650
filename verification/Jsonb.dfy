/**
 The binary JSON reader (jsonBinaryDecoder in replication/json_binary.go). A
 container holds a count, its size, a table of key entries, a table of value
 entries, and then the keys and values the entries point at by offset; small
 scalars sit inside their entries. Offsets are two bytes in the small layout
 and four in the large one.
 */
module Jsonb {
  import opened Bytes
  import opened Lists

  // ----- values -----

  datatype Scalar =
    | NullLiteral | TrueLiteral | FalseLiteral
    | Int16(i: int) | Uint16(u: nat) | Int32(i: int) | Uint32(u: nat) | Int64(i: int) | Uint64(u: nat)
    | Double(bits: nat)
    | String(s: bytes)
    | Opaque(fieldType: byte, payload: bytes)

  /** A decoded value; an object keeps its keys in stored order. */
  datatype Json = JScalar(s: Scalar) | JArray(values: seq<Json>) | JObject(keys: seq<bytes>, values: seq<Json>)

  const SMALL_OBJECT: byte := 0
  const LARGE_OBJECT: byte := 1
  const SMALL_ARRAY: byte := 2
  const LARGE_ARRAY: byte := 3
  const CONTAINERS: set<byte> := {0, 1, 2, 3}

  predicate IsSmall(tp: byte) { tp == SMALL_OBJECT || tp == SMALL_ARRAY }
  predicate IsObject(tp: byte) { tp == SMALL_OBJECT || tp == LARGE_OBJECT }

  function OffsetSize(small: bool): (n: nat) { if small then 2 else 4 }
  function KeyEntries(small: bool, n: nat): (r: nat) { if small then 4 * n else 6 * n }
  function ValueEntries(small: bool, n: nat): (r: nat) { if small then 3 * n else 5 * n }

  /** Where entry i of the value table lies. */
  function EntryAt(small: bool, table: nat, i: nat): (at: nat) { table + ValueEntries(small, i) }

  function HeaderSize(small: bool, isObject: bool, count: nat): (n: nat) {
    2 * OffsetSize(small) + (if isObject then KeyEntries(small, count) else 0) + ValueEntries(small, count)
  }

  function ValueTable(small: bool, isObject: bool, count: nat): (at: nat) {
    2 * OffsetSize(small) + if isObject then KeyEntries(small, count) else 0
  }

  /** isInlineValue */
  predicate IsInline(tp: byte, small: bool) {
    tp == 4 || tp == 5 || tp == 6 || (!small && (tp == 7 || tp == 8))
  }

  // ----- the decoder -----

  /** Bad is the sticky d.err; Loops is recursion that never returns. */
  datatype Decoded<+T> = Ok(v: T) | Bad | Loops

  /**
   decodeVariableLength from byte `pos`, with `length` gathered so far and `scale` the weight
   of the next seven bits.
   */
  function VariableLength(data: bytes, pos: nat, length: nat, scale: nat): (r: Decoded<(nat, nat)>)
    ensures r.Bad? || (r.Ok? && pos < r.v.1 <= |data|)
    decreases |data| - pos
  {
    if pos >= |data| || pos >= 5 then Bad
    else
      var l := length + data[pos] % 128 * scale;
      if data[pos] < 128 then (if l > 0xFFFF_FFFF then Bad else Ok((l, pos + 1)))
      else VariableLength(data, pos + 1, l, 128 * scale)
  }

  function DecodeBytes(data: bytes): (r: Decoded<bytes>)
    ensures !r.Loops?
  {
    match VariableLength(data, 0, 0, 1)
    case Ok((l, n)) => if |data| < l + n then Bad else Ok(data[n..n + l])
    case Bad => Bad
    case Loops => Loops
  }

  function DecodeLiteral(data: bytes): (r: Decoded<Scalar>)
    ensures !r.Loops?
  {
    if |data| < 1 then Bad
    else if data[0] == 0 then Ok(NullLiteral)
    else if data[0] == 1 then Ok(TrueLiteral)
    else if data[0] == 2 then Ok(FalseLiteral)
    else Bad
  }

  function DecodeOpaque(data: bytes): (r: Decoded<Scalar>)
    ensures !r.Loops?
  {
    if |data| < 1 then Bad
    else match DecodeBytes(data[1..])
      case Ok(p) => Ok(Opaque(data[0], p))
      case Bad => Bad
      case Loops => Loops
  }

  /** decodeValue on every type that is not a container. */
  function DecodeScalar(tp: byte, data: bytes): (r: Decoded<Scalar>)
    ensures !r.Loops?
  {
    match tp
    case 4 => DecodeLiteral(data)
    case 5 => if |data| < 2 then Bad else Ok(Int16(ToSigned(2, FromLE(data[..2]))))
    case 6 => if |data| < 2 then Bad else Ok(Uint16(FromLE(data[..2])))
    case 7 => if |data| < 4 then Bad else Ok(Int32(ToSigned(4, FromLE(data[..4]))))
    case 8 => if |data| < 4 then Bad else Ok(Uint32(FromLE(data[..4])))
    case 9 => if |data| < 8 then Bad else Ok(Int64(ToSigned(8, FromLE(data[..8]))))
    case 10 => if |data| < 8 then Bad else Ok(Uint64(FromLE(data[..8])))
    case 11 => if |data| < 8 then Bad else Ok(Double(FromLE(data[..8])))
    case 12 => (match DecodeBytes(data)
                case Ok(s) => Ok(String(s))
                case Bad => Bad
                case Loops => Loops)
    case 15 => DecodeOpaque(data)
    case _ => Bad
  }

  /** decodeCount */
  function Count(data: bytes, at: nat, small: bool): (n: nat)
    requires at + OffsetSize(small) <= |data|
  {
    FromLE(data[at..at + OffsetSize(small)])
  }

  /** The key loop from entry i. */
  function Keys(data: bytes, small: bool, headerSize: nat, count: nat, i: nat): (r: Decoded<seq<bytes>>)
    requires i <= count && 2 * OffsetSize(small) + KeyEntries(small, count) <= |data|
    ensures !r.Loops?
    decreases count - i
  {
    if i == count then Ok([])
    else
      var entry := 2 * OffsetSize(small) + KeyEntries(small, i);
      var keyOffset := Count(data, entry, small);
      var keyLength := FromLE(data[entry + OffsetSize(small)..entry + OffsetSize(small) + 2]);
      if keyOffset < headerSize || |data| < keyOffset + keyLength then Bad
      else match Keys(data, small, headerSize, count, i + 1)
        case Ok(ks) => Ok([data[keyOffset..keyOffset + keyLength]] + ks)
        case Bad => Bad
        case Loops => Loops
  }

  /**
   decodeValue. `active` holds the container types whose decoding is in progress
   on this very slice: a value entry with offset 0 re-enters the same slice, and
   entering it again with the same type can never end.
   */
  function Decode(tp: byte, data: bytes, active: set<byte>, ignore: bool): (r: Decoded<Json>)
    decreases |data|, |CONTAINERS - active|, 1, 0
  {
    if tp !in CONTAINERS then
      match DecodeScalar(tp, data)
      case Ok(s) => Ok(JScalar(s))
      case Bad => Bad
      case Loops => Loops
    else if tp in active then Loops
    else Container(tp, data, active, ignore)
  }

  /** decodeObjectOrArray */
  function Container(tp: byte, data: bytes, active: set<byte>, ignore: bool): (r: Decoded<Json>)
    requires tp in CONTAINERS && tp !in active
    decreases |data|, |CONTAINERS - active|, 0, 0
  {
    var small, isObject := IsSmall(tp), IsObject(tp);
    var offsetSize := OffsetSize(small);
    if |data| < 2 * offsetSize then Bad
    else
      var count, size := Count(data, 0, small), Count(data, offsetSize, small);
      var headerSize := HeaderSize(small, isObject, count);
      if |data| < size then (if ignore then Ok(JScalar(NullLiteral)) else Bad)
      else if headerSize > size then Bad
      else
        match (if isObject then Keys(data, small, headerSize, count, 0) else Ok([]))
        case Bad => Bad
        case Loops => Loops
        case Ok(keys) =>
          assert CONTAINERS - (active + {tp}) < CONTAINERS - active;
          CardinalityDrops(CONTAINERS - (active + {tp}), CONTAINERS - active);
          match Values(data, small, ValueTable(small, isObject, count), count, 0, active + {tp}, ignore)
          case Bad => Bad
          case Loops => Loops
          case Ok(values) => Ok(if isObject then JObject(keys, values) else JArray(values))
  }

  lemma CardinalityDrops(a: set<byte>, b: set<byte>)
    requires a < b
    ensures |a| < |b|
  {
    assert b == a + (b - a) && |b - a| > 0;
  }

  /** The value loop from entry i; the table starts at `table`. */
  function Values(data: bytes, small: bool, table: nat, count: nat, i: nat, active: set<byte>, ignore: bool)
    : (r: Decoded<seq<Json>>)
    requires i <= count && table + ValueEntries(small, count) <= |data|
    decreases |data|, |CONTAINERS - active|, 2, count - i
  {
    if i == count then Ok([])
    else
      match Entry(data, small, EntryAt(small, table, i), active, ignore)
      case Bad => Bad
      case Loops => Loops
      case Ok(v) =>
        match Values(data, small, table, count, i + 1, active, ignore)
        case Bad => Bad
        case Loops => Loops
        case Ok(vs) => Ok([v] + vs)
  }

  /** One value entry: inline, or at an offset that is only checked against the end of the data. */
  function Entry(data: bytes, small: bool, entry: nat, active: set<byte>, ignore: bool): (r: Decoded<Json>)
    requires entry + 1 + OffsetSize(small) <= |data|
    decreases |data|, |CONTAINERS - active|, 2, 0
  {
    var tp := data[entry];
    if IsInline(tp, small) then Decode(tp, data[entry + 1..entry + 1 + OffsetSize(small)], {}, ignore)
    else
      var valueOffset := Count(data, entry + 1, small);
      if |data| < valueOffset then Bad
      else if valueOffset == 0 then Decode(tp, data, active, ignore)
      else Decode(tp, data[valueOffset..], {}, ignore)
  }

  /** decodeJSONBinary, without the final rendering as text. */
  function DecodeDocument(data: bytes, ignore: bool): (r: Decoded<Json>)
  {
    if |data| < 1 then (if ignore then Ok(JScalar(NullLiteral)) else Bad)
    else match Decode(data[0], data[1..], {}, ignore)
      case Bad => if ignore then Ok(JScalar(NullLiteral)) else Bad
      case r => r
  }

  // ----- the format -----

  /** A document together with the layout chosen for each of its containers. */
  datatype Doc = Leaf(s: Scalar) | Node(small: bool, isObject: bool, keys: seq<bytes>, values: seq<Doc>)

  function Erase(d: Doc): (j: Json)
    decreases d, 1
  {
    match d
    case Leaf(s) => JScalar(s)
    case Node(_, isObject, keys, values) => if isObject then JObject(keys, EraseAll(values))
      else JArray(EraseAll(values))
  }

  function EraseAll(ds: seq<Doc>): (js: seq<Json>)
    decreases ds, 0
  {
    if ds == [] then [] else [Erase(ds[0])] + EraseAll(ds[1..])
  }

  function ScalarTag(s: Scalar): (tp: byte) {
    match s
    case NullLiteral => 4
    case TrueLiteral => 4
    case FalseLiteral => 4
    case Int16(_) => 5
    case Uint16(_) => 6
    case Int32(_) => 7
    case Uint32(_) => 8
    case Int64(_) => 9
    case Uint64(_) => 10
    case Double(_) => 11
    case String(_) => 12
    case Opaque(_, _) => 15
  }

  predicate ScalarFits(s: Scalar) {
    match s
    case Int16(i) => FitsSigned(2, i)
    case Uint16(u) => u < Pow256(2)
    case Int32(i) => FitsSigned(4, i)
    case Uint32(u) => u < Pow256(4)
    case Int64(i) => FitsSigned(8, i)
    case Uint64(u) => u < Pow256(8)
    case Double(u) => u < Pow256(8)
    case String(t) => |t| <= 0xFFFF_FFFF
    case Opaque(_, t) => |t| <= 0xFFFF_FFFF
    case _ => true
  }

  /** Seven bits per byte, low bits first, the top bit set on all but the last. */
  function VarLen(n: nat): (b: bytes)
    ensures |b| > 0
  {
    if n < 128 then [n] else [128 + n % 128] + VarLen(n / 128)
  }

  function ScalarBody(s: Scalar): (b: bytes)
    requires ScalarFits(s)
  {
    match s
    case NullLiteral => [0]
    case TrueLiteral => [1]
    case FalseLiteral => [2]
    case Int16(i) => LE(2, ToUnsigned(2, i))
    case Uint16(u) => LE(2, u)
    case Int32(i) => LE(4, ToUnsigned(4, i))
    case Uint32(u) => LE(4, u)
    case Int64(i) => LE(8, ToUnsigned(8, i))
    case Uint64(u) => LE(8, u)
    case Double(u) => LE(8, u)
    case String(t) => VarLen(|t|) + t
    case Opaque(ft, t) => [ft] + (VarLen(|t|) + t)
  }

  function NodeTag(small: bool, isObject: bool): (tp: byte) {
    if isObject then (if small then SMALL_OBJECT else LARGE_OBJECT) else if small then SMALL_ARRAY else LARGE_ARRAY
  }

  /** Sizes: offsets of two or four bytes, two more for the length of a key, one for the type of a value. */
  lemma SizesAre(small: bool, count: nat)
    ensures OffsetSize(small) == if small then 2 else 4
    ensures HeaderSize(small, false, count) == if small then 4 + 3 * count else 8 + 5 * count
    ensures HeaderSize(small, true, count) == if small then 4 + 7 * count else 8 + 11 * count
    ensures ValueTable(small, false, count) == if small then 4 else 8
    ensures ValueTable(small, true, count) == if small then 4 + 4 * count else 8 + 6 * count
    ensures EntryAt(small, ValueTable(small, true, count), count) == HeaderSize(small, true, count)
    ensures 2 * OffsetSize(small) + KeyEntries(small, count) == ValueTable(small, true, count)
  {
  }

  /** A value lies inside its entry exactly when it has a fixed size and that is within an offset. */
  lemma InlineFits(s: Scalar, tp: byte, small: bool)
    requires ScalarFits(s)
    ensures IsInline(ScalarTag(s), small) <==> !s.String? && !s.Opaque? && |ScalarBody(s)| <= OffsetSize(small)
    ensures tp in {0, 1, 2, 3} ==> !IsInline(tp, small)
  {
  }

  /** Key entry i points past the header at the key's bytes. */
  predicate KeyEntryOk(data: bytes, small: bool, headerSize: nat, i: nat, key: bytes)
    requires 2 * OffsetSize(small) + KeyEntries(small, i + 1) <= |data|
  {
    var entry := 2 * OffsetSize(small) + KeyEntries(small, i);
    var at := Count(data, entry, small);
    && headerSize <= at && at + |key| <= |data|
    && FromLE(data[entry + OffsetSize(small)..entry + OffsetSize(small) + 2]) == |key|
    && data[at..at + |key|] == key
  }

  /** The count, the size and, for an object, every key entry. */
  predicate HeaderOk(data: bytes, small: bool, isObject: bool, keys: seq<bytes>, count: nat) {
    && 2 * OffsetSize(small) <= |data|
    && Count(data, 0, small) == count
    && HeaderSize(small, isObject, count) <= Count(data, OffsetSize(small), small) <= |data|
    && |keys| == (if isObject then count else 0)
    && (forall i :: 0 <= i < |keys| ==> KeyEntryOk(data, small, HeaderSize(small, isObject, count), i, keys[i]))
  }

  /**
   `data` begins with an encoding of `d` of type `tp`: keys and values may lie
   anywhere past the header, in any order and with anything between or after
   them, and inline entries may be padded with anything.
   */
  ghost predicate Encodes(tp: byte, data: bytes, d: Doc)
    decreases d, 1
  {
    match d
    case Leaf(s) => tp == ScalarTag(s) && ScalarFits(s) && ScalarBody(s) <= data
    case Node(small, isObject, keys, values) =>
      && tp == NodeTag(small, isObject)
      && HeaderOk(data, small, isObject, keys, |values|)
      && forall i :: 0 <= i < |values| ==>
           EntryEncodes(data, small, EntryAt(small, ValueTable(small, isObject, |values|), i),
                        HeaderSize(small, isObject, |values|), values[i])
  }

  ghost predicate EntryEncodes(data: bytes, small: bool, entry: nat, headerSize: nat, d: Doc)
    decreases d, 2
  {
    entry + 1 + OffsetSize(small) <= |data| &&
    var tp := data[entry];
    if IsInline(tp, small) then Encodes(tp, data[entry + 1..entry + 1 + OffsetSize(small)], d)
    else
      var at := Count(data, entry + 1, small);
      headerSize <= at <= |data| && Encodes(tp, data[at..], d)
  }

  // ----- decoding inverts the format -----

  lemma {:induction false} VarLenSize(n: nat, k: nat)
    requires 1 <= k <= 5 && n < [0, 0x80, 0x4000, 0x20_0000, 0x1000_0000, 0x8_0000_0000][k]
    ensures |VarLen(n)| <= k
    decreases k
  {
    if n >= 128 { VarLenSize(n / 128, k - 1); }
  }

  lemma {:induction false} VariableLengthRoundTrip(data: bytes, pos: nat, n: nat, length: nat, scale: nat)
    requires pos + |VarLen(n)| <= |data| && VarLen(n) == data[pos..pos + |VarLen(n)|]
    requires pos + |VarLen(n)| <= 5 && length + n * scale <= 0xFFFF_FFFF
    ensures VariableLength(data, pos, length, scale) == Ok((length + n * scale, pos + |VarLen(n)|))
    decreases n
  {
    var v := VarLen(n);
    assert data[pos] == v[0];
    if n >= 128 {
      assert VarLen(n / 128) == v[1..] == data[pos + 1..pos + |v|];
      SplitScale(n, scale);
      VariableLengthRoundTrip(data, pos + 1, n / 128, length + n % 128 * scale, 128 * scale);
    }
  }

  lemma SplitScale(n: nat, scale: nat)
    ensures n % 128 * scale + n / 128 * (128 * scale) == n * scale
  {
    assert n == n % 128 + n / 128 * 128;
    assert n / 128 * 128 * scale == n / 128 * (128 * scale);
  }

  lemma BytesAtFront(t: bytes, rest: bytes)
    requires |t| <= 0xFFFF_FFFF
    ensures DecodeBytes(VarLen(|t|) + t + rest) == Ok(t)
  {
    var v := VarLen(|t|);
    VarLenInFront(v, t, rest);
    Middle(v, t, rest);
    BytesFromSlices(v + t + rest, v, t);
  }

  lemma VarLenInFront(v: bytes, t: bytes, rest: bytes)
    ensures |v + t + rest| == |v| + |t| + |rest| && (v + t + rest)[0..0 + |v|] == v
  {
  }

  lemma BytesFromSlices(data: bytes, v: bytes, t: bytes)
    requires v == VarLen(|t|) && |t| <= 0xFFFF_FFFF && |v| + |t| <= |data|
    requires data[0..0 + |v|] == v && data[|v|..|v| + |t|] == t
    ensures DecodeBytes(data) == Ok(t)
  {
    VarLenSize(|t|, 5);
    VariableLengthRoundTrip(data, 0, |t|, 0, 1);
  }

  lemma BytesRoundTrip(t: bytes, data: bytes)
    requires |t| <= 0xFFFF_FFFF && VarLen(|t|) + t <= data
    ensures DecodeBytes(data) == Ok(t)
  {
    var p := VarLen(|t|) + t;
    PrefixSplit(p, data);
    BytesAtFront(t, data[|p|..]);
  }

  lemma FixedRoundTrip(n: nat, u: nat, data: bytes)
    requires u < Pow256(n) && LE(n, u) <= data
    ensures FromLE(data[..n]) == u
  {
    LittleEndianRoundTrip(n, u);
    assert data[..n] == LE(n, u);
  }

  lemma SignedFixedRoundTrip(n: nat, i: int, data: bytes)
    requires n > 0 && FitsSigned(n, i) && LE(n, ToUnsigned(n, i)) <= data
    ensures ToSigned(n, FromLE(data[..n])) == i
  {
    SignedRoundTrip(n, i);
    FixedRoundTrip(n, ToUnsigned(n, i), data);
  }

  lemma HeadOfPrefix(x: byte, b: bytes, rest: bytes)
    ensures var data := [x] + b + rest; data[0] == x && data[1..] == b + rest
  {
  }

  lemma OpaqueRoundTrip(ft: byte, t: bytes, data: bytes)
    requires |t| <= 0xFFFF_FFFF && [ft] + (VarLen(|t|) + t) <= data
    ensures DecodeOpaque(data) == Ok(Opaque(ft, t))
  {
    var b: bytes := VarLen(|t|) + t;
    PrefixSplit([ft] + b, data);
    HeadOfPrefix(ft, b, data[1 + |b|..]);
    BytesAtFront(t, data[1 + |b|..]);
  }

  lemma ScalarRoundTrip(s: Scalar, data: bytes)
    requires ScalarFits(s) && ScalarBody(s) <= data
    ensures DecodeScalar(ScalarTag(s), data) == Ok(s)
  {
    match s {
      case NullLiteral => assert data[0] == ScalarBody(s)[0];
      case TrueLiteral => assert data[0] == ScalarBody(s)[0];
      case FalseLiteral => assert data[0] == ScalarBody(s)[0];
      case Int16(i) => SignedFixedRoundTrip(2, i, data);
      case Uint16(u) => FixedRoundTrip(2, u, data);
      case Int32(i) => SignedFixedRoundTrip(4, i, data);
      case Uint32(u) => FixedRoundTrip(4, u, data);
      case Int64(i) => SignedFixedRoundTrip(8, i, data);
      case Uint64(u) => FixedRoundTrip(8, u, data);
      case Double(u) => FixedRoundTrip(8, u, data);
      case String(t) => BytesRoundTrip(t, data);
      case Opaque(ft, t) => OpaqueRoundTrip(ft, t, data);
    }
  }

  lemma KeyStep(data: bytes, small: bool, headerSize: nat, count: nat, i: nat, key: bytes, ks: seq<bytes>)
    requires i < count && 2 * OffsetSize(small) + KeyEntries(small, count) <= |data|
    requires KeyEntryOk(data, small, headerSize, i, key)
    requires Keys(data, small, headerSize, count, i + 1) == Ok(ks)
    ensures Keys(data, small, headerSize, count, i) == Ok([key] + ks)
  {
  }

  lemma {:induction false} KeysDecode(data: bytes, small: bool, headerSize: nat, keys: seq<bytes>, i: nat)
    requires i <= |keys| && 2 * OffsetSize(small) + KeyEntries(small, |keys|) <= |data|
    requires forall k :: 0 <= k < |keys| ==> KeyEntryOk(data, small, headerSize, k, keys[k])
    ensures Keys(data, small, headerSize, |keys|, i) == Ok(keys[i..])
    decreases |keys| - i
  {
    if i < |keys| {
      KeysDecode(data, small, headerSize, keys, i + 1);
      KeyStep(data, small, headerSize, |keys|, i, keys[i], keys[i + 1..]);
      TailStep(keys, i);
    } else {
      assert keys[i..] == [];
    }
  }

  lemma ValueStep(data: bytes, small: bool, table: nat, count: nat, i: nat, active: set<byte>, ignore: bool, v: Json,
                  vs: seq<Json>)
    requires i < count && table + ValueEntries(small, count) <= |data|
    requires Entry(data, small, EntryAt(small, table, i), active, ignore) == Ok(v)
    requires Values(data, small, table, count, i + 1, active, ignore) == Ok(vs)
    ensures Values(data, small, table, count, i, active, ignore) == Ok([v] + vs)
  {
  }

  lemma NodeTagSays(small: bool, isObject: bool)
    ensures var tp := NodeTag(small, isObject);
            tp in CONTAINERS && IsSmall(tp) == small && IsObject(tp) == isObject
  {
  }

  lemma ContainerDecodes(small: bool, isObject: bool, data: bytes, keys: seq<bytes>, js: seq<Json>, active: set<byte>,
                         ignore: bool)
    requires NodeTag(small, isObject) !in active
    requires HeaderOk(data, small, isObject, keys, |js|)
    requires Values(data, small, ValueTable(small, isObject, |js|), |js|, 0, active + {NodeTag(small, isObject)},
      ignore) == Ok(js)
    ensures Decode(NodeTag(small, isObject), data, active, ignore)
      == Ok(if isObject then JObject(keys, js) else JArray(js))
  {
    NodeTagSays(small, isObject);
    if isObject {
      KeysDecode(data, small, HeaderSize(small, isObject, |js|), keys, 0);
      assert keys[0..] == keys;
    }
  }

  /** Any well-formed encoding, in either layout and nested to any depth, decodes to its document. */
  lemma {:induction false} DecodeEncoded(tp: byte, data: bytes, d: Doc, active: set<byte>, ignore: bool)
    requires Encodes(tp, data, d) && tp !in active
    ensures Decode(tp, data, active, ignore) == Ok(Erase(d))
    decreases d, 1
  {
    match d {
      case Leaf(s) => ScalarRoundTrip(s, data);
      case Node(small, isObject, keys, values) =>
        var table, headerSize := ValueTable(small, isObject, |values|), HeaderSize(small, isObject, |values|);
        ValuesDecode(data, small, table, headerSize, values, 0, active + {tp}, ignore);
        assert values[0..] == values;
        EraseAllLength(values);
        ContainerDecodes(small, isObject, data, keys, EraseAll(values), active, ignore);
    }
  }

  lemma {:induction false} EraseAllLength(ds: seq<Doc>)
    ensures |EraseAll(ds)| == |ds|
    decreases |ds|
  {
    if ds != [] { EraseAllLength(ds[1..]); }
  }

  lemma {:induction false} EntryDecodes(data: bytes, small: bool, entry: nat, headerSize: nat, d: Doc,
                                        active: set<byte>, ignore: bool)
    requires EntryEncodes(data, small, entry, headerSize, d) && headerSize > 0
    ensures Entry(data, small, entry, active, ignore) == Ok(Erase(d))
    decreases d, 2
  {
    var tp := data[entry];
    if IsInline(tp, small) {
      DecodeEncoded(tp, data[entry + 1..entry + 1 + OffsetSize(small)], d, {}, ignore);
    } else {
      DecodeEncoded(tp, data[Count(data, entry + 1, small)..], d, {}, ignore);
    }
  }

  lemma {:induction false} ValuesDecode(data: bytes, small: bool, table: nat, headerSize: nat, values: seq<Doc>, i: nat,
                                        active: set<byte>, ignore: bool)
    requires i <= |values| && table + ValueEntries(small, |values|) <= |data| && headerSize > 0
    requires forall k :: 0 <= k < |values| ==>
      EntryEncodes(data, small, EntryAt(small, table, k), headerSize, values[k])
    ensures Values(data, small, table, |values|, i, active, ignore) == Ok(EraseAll(values[i..]))
    decreases values, 0, |values| - i
  {
    if i < |values| {
      EntryDecodes(data, small, EntryAt(small, table, i), headerSize, values[i], active, ignore);
      ValuesDecode(data, small, table, headerSize, values, i + 1, active, ignore);
      ValueStep(data, small, table, |values|, i, active, ignore, Erase(values[i]), EraseAll(values[i + 1..]));
      assert values[i..][0] == values[i] && values[i..][1..] == values[i + 1..];
    }
  }

  lemma DocumentRoundTrip(data: bytes, d: Doc, ignore: bool)
    requires data != [] && Encodes(data[0], data[1..], d)
    ensures DecodeDocument(data, ignore) == Ok(Erase(d))
  {
    DecodeEncoded(data[0], data[1..], d, {}, ignore);
  }

  // ----- what is decoded has the format of a scalar -----

  /** The type codes of the format, and the bytes of every scalar whose length its type gives. */
  lemma ScalarsAre(tp: byte, data: bytes)
    requires DecodeScalar(tp, data).Ok?
    ensures match DecodeScalar(tp, data).v
      case NullLiteral => tp == 4 && data[0] == 0
      case TrueLiteral => tp == 4 && data[0] == 1
      case FalseLiteral => tp == 4 && data[0] == 2
      case Int16(_) => tp == 5
      case Uint16(_) => tp == 6
      case Int32(_) => tp == 7
      case Uint32(_) => tp == 8
      case Int64(_) => tp == 9
      case Uint64(_) => tp == 10
      case Double(_) => tp == 11
      case String(_) => tp == 12
      case Opaque(fieldType, _) => tp == 15 && data[0] == fieldType
    ensures 5 <= tp <= 11 ==> var s := DecodeScalar(tp, data).v; ScalarFits(s) && ScalarBody(s) <= data
  {
    if 5 <= tp <= 11 {
      var n := if tp <= 6 then 2 else if tp <= 8 then 4 else 8;
      LittleEndianIsOnto(data[..n]);
      assert Pow256(2) == 0x1_0000 && Pow256(4) == 0x1_0000_0000 && Pow256(8) == 0x1_0000_0000_0000_0000;
    }
  }

  // ----- what is decoded has the format of a container -----

  /** A length takes at most five bytes and is a uint32. */
  lemma {:induction false} LengthsAre(data: bytes, pos: nat, length: nat, scale: nat)
    requires VariableLength(data, pos, length, scale).Ok?
    ensures var r := VariableLength(data, pos, length, scale); r.v.0 <= 0xFFFF_FFFF && r.v.1 <= 5
    decreases |data| - pos
  {
    if data[pos] >= 128 { LengthsAre(data, pos + 1, length + data[pos] % 128 * scale, 128 * scale); }
  }

  ghost predicate KeysOk(data: bytes, small: bool, headerSize: nat, i: nat, ks: seq<bytes>)
    requires 2 * OffsetSize(small) + KeyEntries(small, i + |ks|) <= |data|
    decreases |ks|
  {
    ks == [] || (KeyEntryOk(data, small, headerSize, i, ks[0]) && KeysOk(data, small, headerSize, i + 1, ks[1..]))
  }

  lemma {:induction false} KeysOkAt(data: bytes, small: bool, headerSize: nat, i: nat, ks: seq<bytes>, j: nat)
    requires 2 * OffsetSize(small) + KeyEntries(small, i + |ks|) <= |data| && KeysOk(data, small, headerSize, i, ks)
    requires j < |ks|
    ensures KeyEntryOk(data, small, headerSize, i + j, ks[j])
    decreases |ks|
  {
    if j > 0 { KeysOkAt(data, small, headerSize, i + 1, ks[1..], j - 1); }
  }

  lemma {:induction false} KeysSound(data: bytes, small: bool, headerSize: nat, count: nat, i: nat)
    requires i <= count && 2 * OffsetSize(small) + KeyEntries(small, count) <= |data|
    requires Keys(data, small, headerSize, count, i).Ok?
    ensures var ks := Keys(data, small, headerSize, count, i).v;
      |ks| == count - i && KeysOk(data, small, headerSize, i, ks)
    decreases count - i
  {
    if i < count {
      KeysStep(data, small, headerSize, count, i);
      KeysSound(data, small, headerSize, count, i + 1);
    }
  }

  lemma KeysStep(data: bytes, small: bool, headerSize: nat, count: nat, i: nat)
    requires i < count && 2 * OffsetSize(small) + KeyEntries(small, count) <= |data|
    requires Keys(data, small, headerSize, count, i).Ok?
    ensures Keys(data, small, headerSize, count, i + 1).Ok?
    ensures var ks := Keys(data, small, headerSize, count, i).v;
      ks != [] && ks[1..] == Keys(data, small, headerSize, count, i + 1).v
      && KeyEntryOk(data, small, headerSize, i, ks[0])
  {
  }

  lemma {:induction false} ValuesCount(data: bytes, small: bool, table: nat, count: nat, i: nat, active: set<byte>,
                                       ignore: bool)
    requires i <= count && table + ValueEntries(small, count) <= |data|
    requires Values(data, small, table, count, i, active, ignore).Ok?
    ensures |Values(data, small, table, count, i, active, ignore).v| == count - i
    decreases count - i
  {
    if i < count { ValuesCount(data, small, table, count, i + 1, active, ignore); }
  }

  /** An object or array is only decoded from data whose count, size and key entries are in order. */
  lemma DecodedHeader(tp: byte, data: bytes, active: set<byte>, ignore: bool)
    requires Decode(tp, data, active, ignore).Ok? && !Decode(tp, data, active, ignore).v.JScalar?
    ensures var j := Decode(tp, data, active, ignore).v;
      && tp in {0, 1, 2, 3} && (j.JObject? <==> tp <= 1)
      && HeaderOk(data, tp % 2 == 0, j.JObject?, if j.JObject? then j.keys else [], |j.values|)
  {
    var small, isObject := IsSmall(tp), IsObject(tp);
    var count := Count(data, 0, small);
    ContainerParts(tp, data, active, ignore, small, isObject, count);
    if isObject { DecodedKeys(data, small, count); }
    ValuesCount(data, small, ValueTable(small, isObject, count), count, 0, active + {tp}, ignore);
  }

  lemma ContainerParts(tp: byte, data: bytes, active: set<byte>, ignore: bool, small: bool, isObject: bool, count: nat)
    requires Decode(tp, data, active, ignore).Ok? && !Decode(tp, data, active, ignore).v.JScalar?
    requires small == IsSmall(tp) && isObject == IsObject(tp) && |data| >= OffsetSize(small)
    requires count == Count(data, 0, small)
    ensures tp in CONTAINERS && |data| >= 2 * OffsetSize(small)
    ensures HeaderSize(small, isObject, count) <= Count(data, OffsetSize(small), small) <= |data|
    ensures var values := Values(data, small, ValueTable(small, isObject, count), count, 0, active + {tp}, ignore);
      values.Ok? &&
      if isObject then
        var keys := Keys(data, small, HeaderSize(small, isObject, count), count, 0);
        keys.Ok? && Decode(tp, data, active, ignore) == Ok(JObject(keys.v, values.v))
      else Decode(tp, data, active, ignore) == Ok(JArray(values.v))
  {
  }

  lemma DecodedKeys(data: bytes, small: bool, count: nat)
    requires HeaderSize(small, true, count) <= |data| && Keys(data, small, HeaderSize(small, true, count), count, 0).Ok?
    ensures var ks := Keys(data, small, HeaderSize(small, true, count), count, 0).v;
      |ks| == count && forall i :: 0 <= i < count ==> KeyEntryOk(data, small, HeaderSize(small, true, count), i, ks[i])
  {
    var size := HeaderSize(small, true, count);
    KeysSound(data, small, size, count, 0);
    var ks := Keys(data, small, size, count, 0).v;
    forall i | 0 <= i < count ensures KeyEntryOk(data, small, size, i, ks[i]) { KeysOkAt(data, small, size, 0, ks, i); }
  }

  /** Ignoring errors changes no document that is decoded without it, and no document is refused then. */
  lemma IgnoringKeeps(data: bytes)
    ensures DecodeDocument(data, true) != Bad
    ensures DecodeDocument(data, false).Ok? ==> DecodeDocument(data, true) == DecodeDocument(data, false)
  {
    if |data| >= 1 && Decode(data[0], data[1..], {}, false).Ok? { IgnoringKeepsValue(data[0], data[1..], {}); }
  }

  lemma {:induction false} IgnoringKeepsValue(tp: byte, data: bytes, active: set<byte>)
    requires Decode(tp, data, active, false).Ok?
    ensures Decode(tp, data, active, true) == Decode(tp, data, active, false)
    decreases |data|, |CONTAINERS - active|, 1, 0
  {
    if tp in CONTAINERS {
      var small, isObject := IsSmall(tp), IsObject(tp);
      var count := Count(data, 0, small);
      assert CONTAINERS - (active + {tp}) < CONTAINERS - active;
      CardinalityDrops(CONTAINERS - (active + {tp}), CONTAINERS - active);
      IgnoringKeepsValues(data, small, ValueTable(small, isObject, count), count, 0, active + {tp});
    }
  }

  lemma {:induction false} IgnoringKeepsValues(data: bytes, small: bool, table: nat, count: nat, i: nat,
                                               active: set<byte>)
    requires i <= count && table + ValueEntries(small, count) <= |data|
    requires Values(data, small, table, count, i, active, false).Ok?
    ensures Values(data, small, table, count, i, active, true) == Values(data, small, table, count, i, active, false)
    decreases |data|, |CONTAINERS - active|, 2, count - i
  {
    if i < count {
      IgnoringKeepsEntry(data, small, EntryAt(small, table, i), active);
      IgnoringKeepsValues(data, small, table, count, i + 1, active);
    }
  }

  lemma {:induction false} IgnoringKeepsEntry(data: bytes, small: bool, entry: nat, active: set<byte>)
    requires entry + 1 + OffsetSize(small) <= |data| && Entry(data, small, entry, active, false).Ok?
    ensures Entry(data, small, entry, active, true) == Entry(data, small, entry, active, false)
    decreases |data|, |CONTAINERS - active|, 2, 0
  {
    var tp := data[entry];
    if IsInline(tp, small) {
      IgnoringKeepsValue(tp, data[entry + 1..entry + 1 + OffsetSize(small)], {});
    } else {
      var at := Count(data, entry + 1, small);
      if at == 0 { IgnoringKeepsValue(tp, data, active); } else { IgnoringKeepsValue(tp, data[at..], {}); }
    }
  }
}
