/**
 A writer of binary JSON: for every document that fits its layouts there is an
 encoding, so the reader's inverse theorem covers every such document.
 */
module JsonbEncoder {
  import opened Bytes
  import opened Lists
  import opened Jsonb

  function Tag(d: Doc): (tp: byte) {
    match d
    case Leaf(s) => ScalarTag(s)
    case Node(small, isObject, _, _) => NodeTag(small, isObject)
  }

  function Tags(ds: seq<Doc>): (ts: seq<byte>)
    ensures |ts| == |ds|
  {
    seq(|ds|, i requires 0 <= i < |ds| => Tag(ds[i]))
  }

  /** An inline value, padded to the width of an offset. */
  function Pad(b: bytes, n: nat): (r: bytes)
    ensures |b| <= n ==> |r| == n && b <= r
  {
    b + seq(if |b| <= n then n - |b| else 0, _ => 0)
  }

  /** Where element i of a list lies when the list is laid out from `base` on. */
  function Place(base: nat, ss: seq<bytes>, i: nat): (n: nat)
    requires i <= |ss|
    ensures base <= n
  {
    if i == 0 then base else Place(base, ss, i - 1) + |ss[i - 1]|
  }

  function End(base: nat, ss: seq<bytes>): (n: nat)
    ensures base <= n
  {
    Place(base, ss, |ss|)
  }

  lemma {:induction false} PlaceIsLength(base: nat, ss: seq<bytes>, i: nat)
    requires i <= |ss|
    ensures Place(base, ss, i) == base + |Flatten(ss[..i])|
  {
    if i > 0 {
      PlaceIsLength(base, ss, i - 1);
      FlattenConcat(ss[..i - 1], [ss[i - 1]]);
      assert ss[..i] == ss[..i - 1] + [ss[i - 1]];
      assert Flatten([ss[i - 1]]) == ss[i - 1] + Flatten([]);
    }
  }

  lemma EndIsLength(base: nat, ss: seq<bytes>)
    ensures End(base, ss) == base + |Flatten(ss)|
  {
    PlaceIsLength(base, ss, |ss|);
    assert ss[..|ss|] == ss;
  }

  lemma {:induction false} PlaceGrows(base: nat, ss: seq<bytes>, i: nat, j: nat)
    requires i < j <= |ss|
    ensures Place(base, ss, i) + |ss[i]| <= Place(base, ss, j)
  {
    if i + 1 < j { PlaceGrows(base, ss, i, j - 1); }
  }

  function KeyEntry(small: bool, key: bytes, at: nat): (e: bytes)
    ensures |e| == OffsetSize(small) + 2
  {
    LE(OffsetSize(small), at) + LE(2, |key|)
  }

  /** Key i lies after the keys before it, from `base` on. */
  function KeyTable(small: bool, keys: seq<bytes>, base: nat): (t: seq<bytes>)
    ensures |t| == |keys|
    ensures forall i {:trigger t[i]} :: 0 <= i < |t| ==> t[i] == KeyEntry(small, keys[i], Place(base, keys, i))
    ensures forall i :: 0 <= i < |t| ==> |t[i]| == OffsetSize(small) + 2
  {
    seq(|keys|, i requires 0 <= i < |keys| => KeyEntry(small, keys[i], Place(base, keys, i)))
  }

  /** A value's place in the heap: nothing when it is inline. */
  function Placed(small: bool, tags: seq<byte>, bodies: seq<bytes>): (ps: seq<bytes>)
    requires |tags| == |bodies|
    ensures |ps| == |tags|
    ensures forall i :: 0 <= i < |ps| ==> ps[i] == if IsInline(tags[i], small) then [] else bodies[i]
  {
    seq(|tags|, i requires 0 <= i < |tags| => if IsInline(tags[i], small) then [] else bodies[i])
  }

  predicate InlineFit(small: bool, tags: seq<byte>, bodies: seq<bytes>) {
    |tags| == |bodies| && forall i :: 0 <= i < |tags| && IsInline(tags[i], small) ==> |bodies[i]| <= OffsetSize(small)
  }

  function ValueEntry(small: bool, tag: byte, body: bytes, at: nat): (e: bytes)
    requires IsInline(tag, small) ==> |body| <= OffsetSize(small)
    ensures |e| == 1 + OffsetSize(small)
  {
    [tag] + if IsInline(tag, small) then Pad(body, OffsetSize(small)) else LE(OffsetSize(small), at)
  }

  /** Value i lies after the values before it, from `base` on. */
  function ValTable(small: bool, tags: seq<byte>, bodies: seq<bytes>, ps: seq<bytes>, base: nat): (t: seq<bytes>)
    requires InlineFit(small, tags, bodies) && |ps| == |tags|
    ensures |t| == |tags|
    ensures forall i {:trigger t[i]} :: 0 <= i < |t| ==>
              t[i] == ValueEntry(small, tags[i], bodies[i], Place(base, ps, i))
    ensures forall i :: 0 <= i < |t| ==> |t[i]| == OffsetSize(small) + 1
  {
    seq(|tags|, i requires 0 <= i < |tags| => ValueEntry(small, tags[i], bodies[i], Place(base, ps, i)))
  }

  function NodeSize(small: bool, isObject: bool, keys: seq<bytes>, tags: seq<byte>, bodies: seq<bytes>): (n: nat)
    requires |tags| == |bodies|
  {
    End(End(HeaderSize(small, isObject, |tags|), keys), Placed(small, tags, bodies))
  }

  predicate NodeFits(small: bool, isObject: bool, keys: seq<bytes>, tags: seq<byte>, bodies: seq<bytes>) {
    && InlineFit(small, tags, bodies)
    && |keys| == (if isObject then |tags| else 0)
    && (forall i :: 0 <= i < |keys| ==> |keys[i]| < Pow256(2))
    && |tags| < Pow256(OffsetSize(small))
    && NodeSize(small, isObject, keys, tags, bodies) < Pow256(OffsetSize(small))
  }

  function Front(small: bool, count: nat, size: nat): (b: bytes)
    ensures |b| == 2 * OffsetSize(small)
  {
    LE(OffsetSize(small), count) + LE(OffsetSize(small), size)
  }

  /** The count and size, the two tables, the keys and the values that are not inline. */
  datatype Parts = Parts(front: bytes, kt: seq<bytes>, vt: seq<bytes>, keys: seq<bytes>, ps: seq<bytes>)

  function PartsOf(small: bool, isObject: bool, keys: seq<bytes>, tags: seq<byte>, bodies: seq<bytes>): (p: Parts)
    requires NodeFits(small, isObject, keys, tags, bodies)
  {
    var header, ps := HeaderSize(small, isObject, |tags|), Placed(small, tags, bodies);
    Parts(Front(small, |tags|, NodeSize(small, isObject, keys, tags, bodies)),
          KeyTable(small, keys, header), ValTable(small, tags, bodies, ps, End(header, keys)), keys, ps)
  }

  function Assemble(p: Parts): (b: bytes) {
    p.front + Flatten(p.kt) + Flatten(p.vt) + Flatten(p.keys) + Flatten(p.ps)
  }

  function NodeBody(small: bool, isObject: bool, keys: seq<bytes>, tags: seq<byte>, bodies: seq<bytes>): (b: bytes)
    requires NodeFits(small, isObject, keys, tags, bodies)
  {
    Assemble(PartsOf(small, isObject, keys, tags, bodies))
  }

  /** Everything fits the widths its layout gives it. */
  predicate DocFits(d: Doc)
    decreases d, 1
  {
    match d
    case Leaf(s) => ScalarFits(s)
    case Node(small, isObject, keys, values) =>
      AllFit(values) && NodeFits(small, isObject, keys, Tags(values), Bodies(values))
  }

  predicate AllFit(ds: seq<Doc>)
    decreases ds, 0
  {
    ds == [] || (DocFits(ds[0]) && AllFit(ds[1..]))
  }

  function Body(d: Doc): (b: bytes)
    requires DocFits(d)
    decreases d, 2
  {
    match d
    case Leaf(s) => ScalarBody(s)
    case Node(small, isObject, keys, values) => NodeBody(small, isObject, keys, Tags(values), Bodies(values))
  }

  function Bodies(ds: seq<Doc>): (bs: seq<bytes>)
    requires AllFit(ds)
    ensures |bs| == |ds|
    decreases ds, 1
  {
    if ds == [] then [] else [Body(ds[0])] + Bodies(ds[1..])
  }

  function EncodeDocument(d: Doc): (b: bytes)
    requires DocFits(d)
  {
    [Tag(d)] + Body(d)
  }

  // ----- where things lie -----

  lemma {:induction false} KeySlots(small: bool, base: nat, kt: seq<bytes>, i: nat)
    requires i <= |kt| && forall k :: 0 <= k < |kt| ==> |kt[k]| == OffsetSize(small) + 2
    ensures Place(base, kt, i) == base + KeyEntries(small, i)
  {
    if i > 0 { KeySlots(small, base, kt, i - 1); }
  }

  lemma {:induction false} ValueSlots(small: bool, base: nat, vt: seq<bytes>, i: nat)
    requires i <= |vt| && forall k :: 0 <= k < |vt| ==> |vt[k]| == OffsetSize(small) + 1
    ensures Place(base, vt, i) == base + ValueEntries(small, i)
  {
    if i > 0 { ValueSlots(small, base, vt, i - 1); }
  }

  lemma AtFront(pre: bytes, e: bytes, rest: bytes)
    ensures e <= (pre + e + rest)[|pre|..]
  {
    assert (pre + e + rest)[|pre|..] == e + rest;
  }

  /** An element of one of the tables or heaps, seen inside the whole body. */
  lemma Inside(pre: bytes, parts: seq<bytes>, post: bytes, i: nat)
    requires i < |parts|
    ensures var data, at := pre + Flatten(parts) + post, Place(|pre|, parts, i);
      && at + |parts[i]| <= |data|
      && data[at..at + |parts[i]|] == parts[i]
      && parts[i] <= data[at..]
  {
    FlattenAt(parts, i);
    PlaceIsLength(|pre|, parts, i);
    var a, e, b := Flatten(parts[..i]), parts[i], Flatten(parts[i + 1..]);
    ConcatSpread(pre, a, e, b, post);
    Middle(pre + a, e, b + post);
    AtFront(pre + a, e, b + post);
  }

  lemma SplitEntry(data: bytes, at: nat, e1: bytes, e2: bytes)
    requires at + |e1| + |e2| <= |data| && data[at..at + |e1| + |e2|] == e1 + e2
    ensures data[at..at + |e1|] == e1 && data[at + |e1|..at + |e1| + |e2|] == e2
  {
    var s := data[at..at + |e1| + |e2|];
    assert data[at..at + |e1|] == s[..|e1|] && data[at + |e1|..at + |e1| + |e2|] == s[|e1|..];
  }

  lemma CountOfLE(data: bytes, at: nat, small: bool, v: nat)
    requires at + OffsetSize(small) <= |data| && v < Pow256(OffsetSize(small))
    requires data[at..at + OffsetSize(small)] == LE(OffsetSize(small), v)
    ensures Count(data, at, small) == v
  {
    LittleEndianRoundTrip(OffsetSize(small), v);
  }

  /** The count and size fields. */
  lemma FrontInBody(small: bool, count: nat, size: nat, post: bytes)
    requires count < Pow256(OffsetSize(small)) && size < Pow256(OffsetSize(small))
    ensures var data := Front(small, count, size) + post;
      Count(data, 0, small) == count && Count(data, OffsetSize(small), small) == size
  {
    var n, data := OffsetSize(small), Front(small, count, size) + post;
    assert data[0..0 + n + n] == LE(n, count) + LE(n, size);
    SplitEntry(data, 0, LE(n, count), LE(n, size));
    CountOfLE(data, 0, small, count);
    CountOfLE(data, n, small, size);
  }

  lemma KeyEntryFromSlices(data: bytes, small: bool, header: nat, i: nat, key: bytes, at: nat)
    requires 2 * OffsetSize(small) + KeyEntries(small, i + 1) <= |data|
    requires var entry := 2 * OffsetSize(small) + KeyEntries(small, i);
             data[entry..entry + (OffsetSize(small) + 2)] == KeyEntry(small, key, at)
    requires at < Pow256(OffsetSize(small)) && |key| < Pow256(2)
    requires header <= at && at + |key| <= |data| && data[at..at + |key|] == key
    ensures KeyEntryOk(data, small, header, i, key)
  {
    var entry := 2 * OffsetSize(small) + KeyEntries(small, i);
    assert entry + (OffsetSize(small) + 2) == entry + OffsetSize(small) + 2;
    SplitEntry(data, entry, LE(OffsetSize(small), at), LE(2, |key|));
    CountOfLE(data, entry, small, at);
    LittleEndianRoundTrip(2, |key|);
  }

  ghost predicate ValueAt(data: bytes, small: bool, entry: nat, base: nat, tag: byte, body: bytes) {
    && entry + 1 + OffsetSize(small) <= |data| && data[entry] == tag
    && (if IsInline(tag, small) then Pad(body, OffsetSize(small)) == data[entry + 1..entry + 1 + OffsetSize(small)]
        else base <= Count(data, entry + 1, small) <= |data| && body <= data[Count(data, entry + 1, small)..])
  }

  lemma ValueFromSlices(data: bytes, small: bool, entry: nat, base: nat, tag: byte, body: bytes, at: nat)
    requires IsInline(tag, small) ==> |body| <= OffsetSize(small)
    requires entry + 1 + OffsetSize(small) <= |data|
    requires data[entry..entry + 1 + OffsetSize(small)] == ValueEntry(small, tag, body, at)
    requires !IsInline(tag, small) ==> base <= at <= |data| && at < Pow256(OffsetSize(small)) && body <= data[at..]
    ensures ValueAt(data, small, entry, base, tag, body)
  {
    var field := if IsInline(tag, small) then Pad(body, OffsetSize(small)) else LE(OffsetSize(small), at);
    SplitEntry(data, entry, [tag], field);
    assert data[entry..entry + 1][0] == data[entry];
    if !IsInline(tag, small) { CountOfLE(data, entry + 1, small, at); }
  }

  /** Where the value table, the keys and the values that are not inline start. */
  function ValuesAt(p: Parts): (n: nat) { End(|p.front|, p.kt) }

  function KeysAt(p: Parts): (n: nat) { End(ValuesAt(p), p.vt) }

  function HeapAt(p: Parts): (n: nat) { End(KeysAt(p), p.keys) }

  /** Every table entry and heap element of an assembled body is where the tables say. */
  lemma AssembledKey(p: Parts, i: nat, entry: nat, width: nat, at: nat, data: bytes)
    requires i < |p.kt| == |p.keys| && data == Assemble(p)
    requires entry == Place(|p.front|, p.kt, i) && width == |p.kt[i]| && at == Place(KeysAt(p), p.keys, i)
    ensures entry + width <= |data| && data[entry..entry + width] == p.kt[i]
    ensures at + |p.keys[i]| <= |data| && data[at..at + |p.keys[i]|] == p.keys[i]
  {
    EndIsLength(|p.front|, p.kt);
    EndIsLength(ValuesAt(p), p.vt);
    Inside(p.front, p.kt, Flatten(p.vt) + Flatten(p.keys) + Flatten(p.ps), i);
    ConcatRegroup(p.front + Flatten(p.kt), Flatten(p.vt), Flatten(p.keys), Flatten(p.ps));
    Inside(p.front + Flatten(p.kt) + Flatten(p.vt), p.keys, Flatten(p.ps), i);
  }

  lemma AssembledEntry(p: Parts, i: nat, entry: nat, width: nat, data: bytes)
    requires i < |p.vt| && entry == Place(ValuesAt(p), p.vt, i) && width == |p.vt[i]| && data == Assemble(p)
    ensures entry + width <= |data| && data[entry..entry + width] == p.vt[i]
  {
    EndIsLength(|p.front|, p.kt);
    Inside(p.front + Flatten(p.kt), p.vt, Flatten(p.keys) + Flatten(p.ps), i);
    ConcatAssoc(p.front + Flatten(p.kt) + Flatten(p.vt), Flatten(p.keys), Flatten(p.ps));
  }

  lemma AssembledValue(p: Parts, i: nat, at: nat, data: bytes)
    requires i < |p.ps| && at == Place(HeapAt(p), p.ps, i) && data == Assemble(p)
    ensures at <= |data| && p.ps[i] <= data[at..]
  {
    EndIsLength(|p.front|, p.kt);
    EndIsLength(ValuesAt(p), p.vt);
    EndIsLength(KeysAt(p), p.keys);
    Inside(p.front + Flatten(p.kt) + Flatten(p.vt) + Flatten(p.keys), p.ps, [], i);
    ConcatEmpty(data);
  }

  // ----- the writer's output is well formed -----

  lemma PartLengths(p: Parts, small: bool, isObject: bool, keys: seq<bytes>, tags: seq<byte>, bodies: seq<bytes>)
    requires NodeFits(small, isObject, keys, tags, bodies) && p == PartsOf(small, isObject, keys, tags, bodies)
    ensures ValuesAt(p) == ValueTable(small, isObject, |tags|)
    ensures KeysAt(p) == HeaderSize(small, isObject, |tags|)
    ensures HeapAt(p) == End(HeaderSize(small, isObject, |tags|), keys)
    ensures End(HeapAt(p), p.ps) == |Assemble(p)| == NodeSize(small, isObject, keys, tags, bodies)
  {
    KeySlots(small, |p.front|, p.kt, |p.kt|);
    ValueSlots(small, ValuesAt(p), p.vt, |p.vt|);
    EndIsLength(|p.front|, p.kt);
    EndIsLength(ValuesAt(p), p.vt);
    EndIsLength(KeysAt(p), p.keys);
    EndIsLength(HeapAt(p), p.ps);
  }

  lemma KeyOfParts(p: Parts, small: bool, header: nat, i: nat, at: nat, data: bytes)
    requires i < |p.kt| == |p.keys| && |p.front| == 2 * OffsetSize(small) && data == Assemble(p)
    requires forall k :: 0 <= k < |p.kt| ==> |p.kt[k]| == OffsetSize(small) + 2
    requires header == KeysAt(p) && at == Place(header, p.keys, i) && End(header, p.keys) < Pow256(OffsetSize(small))
    requires p.kt[i] == KeyEntry(small, p.keys[i], at) && |p.keys[i]| < Pow256(2)
    ensures 2 * OffsetSize(small) + KeyEntries(small, i + 1) <= |data|
    ensures KeyEntryOk(data, small, header, i, p.keys[i])
  {
    KeySlots(small, |p.front|, p.kt, i);
    AssembledKey(p, i, 2 * OffsetSize(small) + KeyEntries(small, i), OffsetSize(small) + 2, at, data);
    PlaceGrows(header, p.keys, i, |p.keys|);
    KeyEntryFromSlices(data, small, header, i, p.keys[i], at);
  }

  lemma ValueOfParts(p: Parts, small: bool, i: nat, entry: nat, at: nat, tag: byte, body: bytes, data: bytes)
    requires i < |p.vt| == |p.ps| && data == Assemble(p)
    requires forall k :: 0 <= k < |p.vt| ==> |p.vt[k]| == OffsetSize(small) + 1
    requires IsInline(tag, small) ==> |body| <= OffsetSize(small)
    requires entry == EntryAt(small, ValuesAt(p), i)
    requires at == Place(HeapAt(p), p.ps, i) && p.vt[i] == ValueEntry(small, tag, body, at)
    requires !IsInline(tag, small) ==> p.ps[i] == body
    requires End(HeapAt(p), p.ps) < Pow256(OffsetSize(small))
    ensures ValueAt(data, small, entry, KeysAt(p), tag, body)
  {
    ValueSlots(small, ValuesAt(p), p.vt, i);
    AssembledEntry(p, i, entry, 1 + OffsetSize(small), data);
    AssembledValue(p, i, at, data);
    PlaceGrows(HeapAt(p), p.ps, i, |p.ps|);
    assert entry + (1 + OffsetSize(small)) == entry + 1 + OffsetSize(small);
    ValueFromSlices(data, small, entry, KeysAt(p), tag, body, at);
  }

  lemma NodeKey(small: bool, isObject: bool, keys: seq<bytes>, tags: seq<byte>, bodies: seq<bytes>, i: nat, data: bytes)
    requires NodeFits(small, isObject, keys, tags, bodies) && i < |keys|
    requires data == NodeBody(small, isObject, keys, tags, bodies)
    ensures 2 * OffsetSize(small) + KeyEntries(small, i + 1) <= |data|
    ensures KeyEntryOk(data, small, HeaderSize(small, isObject, |tags|), i, keys[i])
  {
    var p := PartsOf(small, isObject, keys, tags, bodies);
    PartLengths(p, small, isObject, keys, tags, bodies);
    KeyOfParts(p, small, KeysAt(p), i, Place(KeysAt(p), keys, i), data);
  }

  lemma NodeValue(small: bool, isObject: bool, keys: seq<bytes>, tags: seq<byte>, bodies: seq<bytes>, i: nat,
                  entry: nat, data: bytes)
    requires NodeFits(small, isObject, keys, tags, bodies) && i < |tags|
    requires entry == EntryAt(small, ValueTable(small, isObject, |tags|), i)
    requires data == NodeBody(small, isObject, keys, tags, bodies)
    ensures ValueAt(data, small, entry, HeaderSize(small, isObject, |tags|), tags[i], bodies[i])
  {
    var p := PartsOf(small, isObject, keys, tags, bodies);
    PartLengths(p, small, isObject, keys, tags, bodies);
    ValueOfParts(p, small, i, entry, Place(HeapAt(p), p.ps, i), tags[i], bodies[i], data);
  }

  lemma NodeFront(small: bool, isObject: bool, keys: seq<bytes>, tags: seq<byte>, bodies: seq<bytes>)
    requires NodeFits(small, isObject, keys, tags, bodies)
    ensures var data := NodeBody(small, isObject, keys, tags, bodies);
      && |data| == NodeSize(small, isObject, keys, tags, bodies) >= 2 * OffsetSize(small)
      && Count(data, 0, small) == |tags| && Count(data, OffsetSize(small), small) == |data|
  {
    var p := PartsOf(small, isObject, keys, tags, bodies);
    PartLengths(p, small, isObject, keys, tags, bodies);
    FrontInBody(small, |tags|, |Assemble(p)|, Flatten(p.kt) + Flatten(p.vt) + Flatten(p.keys) + Flatten(p.ps));
    FiveParts(p.front, Flatten(p.kt), Flatten(p.vt), Flatten(p.keys), Flatten(p.ps));
  }

  lemma FiveParts(a: bytes, b: bytes, c: bytes, d: bytes, e: bytes)
    ensures a + (b + c + d + e) == a + b + c + d + e
  {
  }

  lemma NodeHeader(small: bool, isObject: bool, keys: seq<bytes>, tags: seq<byte>, bodies: seq<bytes>, data: bytes)
    requires NodeFits(small, isObject, keys, tags, bodies)
    requires data == NodeBody(small, isObject, keys, tags, bodies)
    ensures HeaderOk(data, small, isObject, keys, |tags|)
  {
    NodeFront(small, isObject, keys, tags, bodies);
    forall i | 0 <= i < |keys|
      ensures 2 * OffsetSize(small) + KeyEntries(small, i + 1) <= |data|
      ensures KeyEntryOk(data, small, HeaderSize(small, isObject, |tags|), i, keys[i])
    {
      NodeKey(small, isObject, keys, tags, bodies, i, data);
    }
  }

  /** Bytes after an encoding do not matter. */
  lemma {:induction false} EncodesExtend(tp: byte, data: bytes, d: Doc, rest: bytes)
    requires Encodes(tp, data, d)
    ensures Encodes(tp, data + rest, d)
    decreases d, 1
  {
    match d {
      case Leaf(s) =>
      case Node(small, isObject, keys, values) =>
        var header := HeaderSize(small, isObject, |values|);
        HeaderExtend(data, small, isObject, keys, |values|, rest);
        forall i | 0 <= i < |values|
          ensures EntryEncodes(data + rest, small, EntryAt(small, ValueTable(small, isObject, |values|), i), header,
            values[i])
        {
          EntryExtend(data, small, EntryAt(small, ValueTable(small, isObject, |values|), i), header, values[i], rest);
        }
    }
  }

  lemma {:induction false} EntryExtend(data: bytes, small: bool, entry: nat, header: nat, d: Doc, rest: bytes)
    requires EntryEncodes(data, small, entry, header, d)
    ensures EntryEncodes(data + rest, small, entry, header, d)
    decreases d, 2
  {
    SliceOfConcat(data, rest, entry + 1, entry + 1 + OffsetSize(small));
    if !IsInline(data[entry], small) {
      var at := Count(data, entry + 1, small);
      EncodesExtend(data[entry], data[at..], d, rest);
      DropConcat(data, rest, at);
    }
  }

  lemma HeaderExtend(data: bytes, small: bool, isObject: bool, keys: seq<bytes>, count: nat, rest: bytes)
    requires HeaderOk(data, small, isObject, keys, count)
    ensures HeaderOk(data + rest, small, isObject, keys, count)
  {
    CountExtend(data, rest, 0, small);
    CountExtend(data, rest, OffsetSize(small), small);
    var header := HeaderSize(small, isObject, count);
    forall i | 0 <= i < |keys| ensures KeyEntryOk(data + rest, small, header, i, keys[i]) {
      KeyExtend(data, rest, small, header, i, keys[i]);
    }
  }

  lemma CountExtend(data: bytes, rest: bytes, at: nat, small: bool)
    requires at + OffsetSize(small) <= |data|
    ensures Count(data + rest, at, small) == Count(data, at, small)
  {
    SliceOfConcat(data, rest, at, at + OffsetSize(small));
  }

  lemma KeyExtend(data: bytes, rest: bytes, small: bool, header: nat, i: nat, key: bytes)
    requires 2 * OffsetSize(small) + KeyEntries(small, i + 1) <= |data| && KeyEntryOk(data, small, header, i, key)
    ensures KeyEntryOk(data + rest, small, header, i, key)
  {
    var n, entry := OffsetSize(small), 2 * OffsetSize(small) + KeyEntries(small, i);
    CountExtend(data, rest, entry, small);
    SliceOfConcat(data, rest, entry + n, entry + n + 2);
    var at := Count(data, entry, small);
    SliceOfConcat(data, rest, at, at + |key|);
  }

  lemma {:induction false} BodiesAt(ds: seq<Doc>, i: nat)
    requires AllFit(ds) && i < |ds|
    ensures DocFits(ds[i]) && Bodies(ds)[i] == Body(ds[i])
    decreases |ds|
  {
    if i > 0 { BodiesAt(ds[1..], i - 1); }
  }

  /** An entry built from a value's own encoding encodes that value. */
  lemma EntryOfEncoding(data: bytes, small: bool, entry: nat, base: nat, d: Doc, body: bytes)
    requires ValueAt(data, small, entry, base, Tag(d), body)
    requires Encodes(Tag(d), body, d)
    requires IsInline(Tag(d), small) ==> |body| <= OffsetSize(small)
    ensures EntryEncodes(data, small, entry, base, d)
  {
    if IsInline(Tag(d), small) {
      var padded := Pad(body, OffsetSize(small));
      PrefixSplit(body, padded);
      EncodesExtend(Tag(d), body, d, padded[|body|..]);
    } else {
      var tail := data[Count(data, entry + 1, small)..];
      PrefixSplit(body, tail);
      EncodesExtend(Tag(d), body, d, tail[|body|..]);
    }
  }

  /** Every document that fits is encoded by the writer. */
  lemma {:induction false} BodyEncodes(d: Doc, data: bytes)
    requires DocFits(d) && data == Body(d)
    ensures Encodes(Tag(d), data, d)
    decreases d, 1
  {
    match d {
      case Leaf(s) =>
      case Node(small, isObject, keys, values) =>
        var tags, bodies := Tags(values), Bodies(values);
        NodeHeader(small, isObject, keys, tags, bodies, data);
        EntriesOfNode(small, isObject, keys, values, tags, bodies, data);
    }
  }

  lemma {:induction false} EntriesOfNode(small: bool, isObject: bool, keys: seq<bytes>, values: seq<Doc>,
                                         tags: seq<byte>, bodies: seq<bytes>, data: bytes)
    requires AllFit(values) && tags == Tags(values) && bodies == Bodies(values)
    requires NodeFits(small, isObject, keys, tags, bodies) && data == NodeBody(small, isObject, keys, tags, bodies)
    ensures forall i :: 0 <= i < |values| ==>
      EntryEncodes(data, small, EntryAt(small, ValueTable(small, isObject, |values|), i),
                   HeaderSize(small, isObject, |values|), values[i])
    decreases values, 0
  {
    forall i | 0 <= i < |values|
      ensures EntryEncodes(data, small, EntryAt(small, ValueTable(small, isObject, |values|), i),
                           HeaderSize(small, isObject, |values|), values[i])
    {
      var entry := EntryAt(small, ValueTable(small, isObject, |values|), i);
      BodiesAt(values, i);
      BodyEncodes(values[i], bodies[i]);
      NodeValue(small, isObject, keys, tags, bodies, i, entry, data);
      EntryOfEncoding(data, small, entry, HeaderSize(small, isObject, |values|), values[i], bodies[i]);
    }
  }

  /** Writing any document that fits, in any mix of layouts, and reading it back. */
  lemma DecodeEncodeDocument(d: Doc, rest: bytes, ignore: bool)
    requires DocFits(d)
    ensures DecodeDocument(EncodeDocument(d) + rest, ignore) == Ok(Erase(d))
  {
    var body := Body(d);
    BodyEncodes(d, body);
    EncodesExtend(Tag(d), body, d, rest);
    HeadOfPrefix(Tag(d), body, rest);
    DocumentRoundTrip([Tag(d)] + body + rest, d, ignore);
  }
}
