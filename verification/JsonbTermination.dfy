/**
 When the JSONB decoder returns at all: value offsets are only checked against
 the end of the data, so an entry can point back at its own container.
 */
module JsonbTermination {
  import opened Bytes
  import opened Jsonb

  // ----- the recursion exactly as the source makes it, cut off at a depth -----

  /** decodeValue with at most `depth` nested calls left; here Loops means that they did not suffice. */
  function DecodeTo(depth: nat, tp: byte, data: bytes, ignore: bool): (r: Decoded<Json>)
    decreases depth, 1, 0
  {
    if depth == 0 then Loops
    else if tp !in CONTAINERS then
      match DecodeScalar(tp, data)
      case Ok(s) => Ok(JScalar(s))
      case Bad => Bad
      case Loops => Loops
    else
      var small, isObject := IsSmall(tp), IsObject(tp);
      var offsetSize := OffsetSize(small);
      if |data| < 2 * offsetSize then Bad
      else
        var count, size := Count(data, 0, small), Count(data, offsetSize, small);
        var headerSize := HeaderSize(small, isObject, count);
        if |data| < size then (if ignore then Ok(JScalar(NullLiteral)) else Bad)
        else if headerSize > size then Bad
        else
          match (if isObject then Keys(data, small, headerSize, count, 0) else Ok([]))
          case Bad => Bad
          case Loops => Loops
          case Ok(keys) =>
            match ValuesTo(depth - 1, data, small, ValueTable(small, isObject, count), count, 0, ignore)
            case Bad => Bad
            case Loops => Loops
            case Ok(values) => Ok(if isObject then JObject(keys, values) else JArray(values))
  }

  function ValuesTo(depth: nat, data: bytes, small: bool, table: nat, count: nat, i: nat, ignore: bool)
    : (r: Decoded<seq<Json>>)
    requires i <= count && table + ValueEntries(small, count) <= |data|
    decreases depth, 2, count - i
  {
    if i == count then Ok([])
    else
      match EntryTo(depth, data, small, EntryAt(small, table, i), ignore)
      case Bad => Bad
      case Loops => Loops
      case Ok(v) =>
        match ValuesTo(depth, data, small, table, count, i + 1, ignore)
        case Bad => Bad
        case Loops => Loops
        case Ok(vs) => Ok([v] + vs)
  }

  function EntryTo(depth: nat, data: bytes, small: bool, entry: nat, ignore: bool): (r: Decoded<Json>)
    requires entry + 1 + OffsetSize(small) <= |data|
    decreases depth, 2, 0
  {
    var tp := data[entry];
    if IsInline(tp, small) then DecodeTo(depth, tp, data[entry + 1..entry + 1 + OffsetSize(small)], ignore)
    else
      var valueOffset := Count(data, entry + 1, small);
      if |data| < valueOffset then Bad
      else DecodeTo(depth, tp, data[valueOffset..], ignore)
  }

  /** decodeObjectOrArray gets as far as its value loop. */
  predicate Opens(tp: byte, data: bytes) {
    var small, isObject := IsSmall(tp), IsObject(tp);
    && tp in CONTAINERS && |data| >= 2 * OffsetSize(small)
    && HeaderSize(small, isObject, Count(data, 0, small)) <= Count(data, OffsetSize(small), small) <= |data|
    && (isObject ==>
          Keys(data, small, HeaderSize(small, isObject, Count(data, 0, small)), Count(data, 0, small), 0).Ok?)
  }

  function EntryCount(tp: byte, data: bytes): (n: nat)
    requires Opens(tp, data)
  {
    Count(data, 0, IsSmall(tp))
  }

  /** What decodeObjectOrArray makes of its values. */
  function Wrap(tp: byte, data: bytes, values: Decoded<seq<Json>>): (r: Decoded<Json>)
    requires Opens(tp, data)
  {
    var small, n := IsSmall(tp), EntryCount(tp, data);
    match values
    case Bad => Bad
    case Loops => Loops
    case Ok(vs) => Ok(if IsObject(tp) then JObject(Keys(data, small, HeaderSize(small, true, n), n, 0).v, vs)
      else JArray(vs))
  }

  /** Its answer when it does not get to them. */
  function Refused(tp: byte, data: bytes, ignore: bool): (r: Decoded<Json>) {
    var os := OffsetSize(IsSmall(tp));
    if |data| >= 2 * os && |data| < Count(data, os, IsSmall(tp)) && ignore then Ok(JScalar(NullLiteral)) else Bad
  }

  function ValuesOf(depth: nat, tp: byte, data: bytes, ignore: bool): (r: Decoded<seq<Json>>)
    requires Opens(tp, data)
  {
    var n := EntryCount(tp, data);
    ValuesTo(depth, data, IsSmall(tp), ValueTable(IsSmall(tp), IsObject(tp), n), n, 0, ignore)
  }

  lemma DecodeToStep(depth: nat, tp: byte, data: bytes, ignore: bool)
    requires depth > 0 && tp in CONTAINERS
    ensures DecodeTo(depth, tp, data, ignore)
         == if Opens(tp, data) then Wrap(tp, data, ValuesOf(depth - 1, tp, data, ignore)) else Refused(tp, data, ignore)
  {
  }

  // ----- an answer is reached within a depth that depends on the data alone -----

  function Room(data: bytes, active: set<byte>): (n: nat) { 5 * |data| + |CONTAINERS - active| }

  lemma RoomLeft(active: set<byte>)
    ensures |CONTAINERS - active| <= 4
  {
    CardinalityAtMost(CONTAINERS - active, CONTAINERS);
    assert |CONTAINERS| == 4;
  }

  lemma CardinalityAtMost(a: set<byte>, b: set<byte>)
    requires a <= b
    ensures |a| <= |b|
  {
    if a != b { CardinalityDrops(a, b); }
  }

  lemma {:induction false} Reaches(depth: nat, tp: byte, data: bytes, active: set<byte>, ignore: bool)
    requires Decode(tp, data, active, ignore) != Loops && depth > Room(data, active)
    ensures DecodeTo(depth, tp, data, ignore) == Decode(tp, data, active, ignore)
    decreases depth, 1, 0
  {
    if tp in CONTAINERS {
      var small, isObject := IsSmall(tp), IsObject(tp);
      if |data| >= 2 * OffsetSize(small) {
        var count := Count(data, 0, small);
        if HeaderSize(small, isObject, count) <= Count(data, OffsetSize(small), small) <= |data| {
          CardinalityDrops(CONTAINERS - (active + {tp}), CONTAINERS - active);
          if (if isObject then Keys(data, small, HeaderSize(small, isObject, count), count, 0) else Ok([])).Ok? {
            ValuesReach(depth - 1, data, small, ValueTable(small, isObject, count), count, 0, active + {tp}, ignore);
          }
        }
      }
    }
  }

  lemma {:induction false} ValuesReach(depth: nat, data: bytes, small: bool, table: nat, count: nat, i: nat,
                                       active: set<byte>, ignore: bool)
    requires i <= count && table + ValueEntries(small, count) <= |data|
    requires Values(data, small, table, count, i, active, ignore) != Loops && depth > Room(data, active)
    ensures ValuesTo(depth, data, small, table, count, i, ignore)
      == Values(data, small, table, count, i, active, ignore)
    decreases depth, 2, count - i
  {
    if i < count {
      EntryReaches(depth, data, small, EntryAt(small, table, i), active, ignore);
      if Entry(data, small, EntryAt(small, table, i), active, ignore).Ok? {
        ValuesReach(depth, data, small, table, count, i + 1, active, ignore);
      }
    }
  }

  lemma {:induction false} EntryReaches(depth: nat, data: bytes, small: bool, entry: nat, active: set<byte>,
                                        ignore: bool)
    requires entry + 1 + OffsetSize(small) <= |data|
    requires Entry(data, small, entry, active, ignore) != Loops && depth > Room(data, active)
    ensures EntryTo(depth, data, small, entry, ignore) == Entry(data, small, entry, active, ignore)
    decreases depth, 2, 0
  {
    var tp := data[entry];
    RoomLeft({});
    if IsInline(tp, small) {
      Reaches(depth, tp, data[entry + 1..entry + 1 + OffsetSize(small)], {}, ignore);
    } else {
      var at := Count(data, entry + 1, small);
      if at == 0 {
        assert data[0..] == data;
        Reaches(depth, tp, data, active, ignore);
      } else if at <= |data| {
        Reaches(depth, tp, data[at..], {}, ignore);
      }
    }
  }

  // ----- otherwise no depth suffices -----

  /** Tracking fewer containers changes no answer. */
  lemma {:induction false} FewerActive(tp: byte, data: bytes, few: set<byte>, active: set<byte>, ignore: bool)
    requires few <= active && Decode(tp, data, active, ignore) != Loops
    ensures Decode(tp, data, few, ignore) == Decode(tp, data, active, ignore)
    decreases |data|, |CONTAINERS - active|, 1, 0
  {
    if tp in CONTAINERS {
      var small, isObject := IsSmall(tp), IsObject(tp);
      if |data| >= 2 * OffsetSize(small) {
        var count := Count(data, 0, small);
        if HeaderSize(small, isObject, count) <= Count(data, OffsetSize(small), small) <= |data| {
          CardinalityDrops(CONTAINERS - (active + {tp}), CONTAINERS - active);
          if (if isObject then Keys(data, small, HeaderSize(small, isObject, count), count, 0) else Ok([])).Ok? {
            ValuesFewer(data, small, ValueTable(small, isObject, count), count, 0, few + {tp}, active + {tp}, ignore);
          }
        }
      }
    }
  }

  lemma {:induction false} ValuesFewer(data: bytes, small: bool, table: nat, count: nat, i: nat, few: set<byte>,
                                       active: set<byte>, ignore: bool)
    requires i <= count && table + ValueEntries(small, count) <= |data|
    requires few <= active && Values(data, small, table, count, i, active, ignore) != Loops
    ensures Values(data, small, table, count, i, few, ignore) == Values(data, small, table, count, i, active, ignore)
    decreases |data|, |CONTAINERS - active|, 2, count - i
  {
    if i < count {
      var entry := EntryAt(small, table, i);
      if !IsInline(data[entry], small) && Count(data, entry + 1, small) == 0 {
        FewerActive(data[entry], data, few, active, ignore);
      }
      if Entry(data, small, entry, active, ignore).Ok? {
        ValuesFewer(data, small, table, count, i + 1, few, active, ignore);
      }
    }
  }

  /** When tracking `tp` as well turns an answer into a loop, the decoder had re-entered `tp` and come back. */
  lemma {:induction false} Reenters(t: byte, tp: byte, data: bytes, active: set<byte>, ignore: bool)
    requires Decode(t, data, active, ignore) != Loops && Decode(t, data, active + {tp}, ignore) == Loops
    ensures Decode(tp, data, {}, ignore) != Loops
    decreases |data|, |CONTAINERS - active|, 1, 0
  {
    if t == tp {
      FewerActive(tp, data, {}, active, ignore);
    } else {
      var small, isObject := IsSmall(t), IsObject(t);
      var count := Count(data, 0, small);
      CardinalityDrops(CONTAINERS - (active + {t}), CONTAINERS - active);
      assert active + {t} + {tp} == active + {tp} + {t};
      ValuesReenter(data, small, ValueTable(small, isObject, count), count, 0, active + {t}, tp, ignore);
    }
  }

  lemma {:induction false} ValuesReenter(data: bytes, small: bool, table: nat, count: nat, i: nat, active: set<byte>,
                                         tp: byte, ignore: bool)
    requires i <= count && table + ValueEntries(small, count) <= |data|
    requires Values(data, small, table, count, i, active, ignore) != Loops
    requires Values(data, small, table, count, i, active + {tp}, ignore) == Loops
    ensures Decode(tp, data, {}, ignore) != Loops
    decreases |data|, |CONTAINERS - active|, 2, count - i
  {
    var entry := EntryAt(small, table, i);
    if Entry(data, small, entry, active + {tp}, ignore) == Loops {
      Reenters(data[entry], tp, data, active, ignore);
    } else {
      if !IsInline(data[entry], small) && Count(data, entry + 1, small) == 0 {
        FewerActive(data[entry], data, active, active + {tp}, ignore);
      }
      ValuesReenter(data, small, table, count, i + 1, active, tp, ignore);
    }
  }

  lemma {:induction false} NeverReaches(depth: nat, tp: byte, data: bytes, ignore: bool)
    requires Decode(tp, data, {}, ignore) == Loops
    ensures DecodeTo(depth, tp, data, ignore) == Loops
    decreases depth, 1, 0
  {
    if depth > 0 {
      var small, isObject := IsSmall(tp), IsObject(tp);
      var count := Count(data, 0, small);
      assert {} + {tp} == {tp};
      ValuesNeverReach(depth - 1, data, small, ValueTable(small, isObject, count), count, 0, tp, ignore);
    }
  }

  lemma {:induction false} ValuesNeverReach(depth: nat, data: bytes, small: bool, table: nat, count: nat, i: nat,
                                            tp: byte, ignore: bool)
    requires i <= count && table + ValueEntries(small, count) <= |data|
    requires Values(data, small, table, count, i, {tp}, ignore) == Loops && Decode(tp, data, {}, ignore) == Loops
    ensures ValuesTo(depth, data, small, table, count, i, ignore) == Loops
    decreases depth, 2, count - i
  {
    var entry := EntryAt(small, table, i);
    var t := data[entry];
    if Entry(data, small, entry, {tp}, ignore) == Loops {
      assert !IsInline(t, small) by {
        assert !Decode(t, data[entry + 1..entry + 1 + OffsetSize(small)], {}, ignore).Loops? || t in CONTAINERS;
      }
      var at := Count(data, entry + 1, small);
      if at == 0 {
        assert data[0..] == data && {} + {tp} == {tp};
        if Decode(t, data, {}, ignore) != Loops { Reenters(t, tp, data, {}, ignore); }
        NeverReaches(depth, t, data, ignore);
      } else {
        NeverReaches(depth, t, data[at..], ignore);
      }
    } else {
      ValuesNeverReach(depth, data, small, table, count, i + 1, tp, ignore);
      EntrySame(depth, data, small, entry, {tp}, ignore);
    }
  }

  /** At any depth an entry gives its answer or runs out of depth. */
  lemma {:induction false} EntrySame(depth: nat, data: bytes, small: bool, entry: nat, active: set<byte>, ignore: bool)
    requires entry + 1 + OffsetSize(small) <= |data|
    requires Entry(data, small, entry, active, ignore) != Loops
    ensures EntryTo(depth, data, small, entry, ignore) in {Entry(data, small, entry, active, ignore), Loops}
  {
    var enough := depth + Room(data, active) + 1;
    EntryReaches(enough, data, small, entry, active, ignore);
    EntryDeeper(depth, enough, data, small, entry, ignore);
  }

  lemma {:induction false} Deeper(depth: nat, more: nat, tp: byte, data: bytes, ignore: bool)
    requires depth <= more
    ensures DecodeTo(depth, tp, data, ignore) in {DecodeTo(more, tp, data, ignore), Loops}
    decreases depth, 1, 0
  {
    if depth > 0 && tp in CONTAINERS {
      DecodeToStep(depth, tp, data, ignore);
      DecodeToStep(more, tp, data, ignore);
      if Opens(tp, data) {
        var n := EntryCount(tp, data);
        ValuesDeeper(depth - 1, more - 1, data, IsSmall(tp), ValueTable(IsSmall(tp), IsObject(tp), n), n, 0, ignore);
      }
    }
  }

  lemma {:induction false} ValuesDeeper(depth: nat, more: nat, data: bytes, small: bool, table: nat, count: nat,
                                        i: nat, ignore: bool)
    requires depth <= more && i <= count && table + ValueEntries(small, count) <= |data|
    ensures ValuesTo(depth, data, small, table, count, i, ignore)
         in {ValuesTo(more, data, small, table, count, i, ignore), Loops}
    decreases depth, 2, count - i
  {
    if i < count {
      EntryDeeper(depth, more, data, small, EntryAt(small, table, i), ignore);
      ValuesDeeper(depth, more, data, small, table, count, i + 1, ignore);
    }
  }

  lemma {:induction false} EntryDeeper(depth: nat, more: nat, data: bytes, small: bool, entry: nat, ignore: bool)
    requires depth <= more && entry + 1 + OffsetSize(small) <= |data|
    ensures EntryTo(depth, data, small, entry, ignore) in {EntryTo(more, data, small, entry, ignore), Loops}
    decreases depth, 2, 0
  {
    var tp := data[entry];
    if IsInline(tp, small) {
      Deeper(depth, more, tp, data[entry + 1..entry + 1 + OffsetSize(small)], ignore);
    } else if Count(data, entry + 1, small) <= |data| {
      Deeper(depth, more, tp, data[Count(data, entry + 1, small)..], ignore);
    }
  }

  /** No depth of recursion suffices. */
  ghost predicate NeverReturns(tp: byte, data: bytes, ignore: bool) {
    forall depth: nat :: DecodeTo(depth, tp, data, ignore) == Loops
  }

  /** The decoder's answer is Loops exactly when it never returns. */
  lemma LoopsExactlyWhenUnbounded(tp: byte, data: bytes, ignore: bool)
    ensures Decode(tp, data, {}, ignore) == Loops <==> NeverReturns(tp, data, ignore)
  {
    if Decode(tp, data, {}, ignore) == Loops {
      forall depth: nat ensures DecodeTo(depth, tp, data, ignore) == Loops { NeverReaches(depth, tp, data, ignore); }
    } else {
      Reaches(Room(data, {}) + 1, tp, data, {}, ignore);
    }
  }

  // ----- the same, told from the offsets -----

  /** Where value entry i of a container lies. */
  function EntryOf(tp: byte, data: bytes, i: nat): (entry: nat)
    requires Opens(tp, data) && i < EntryCount(tp, data)
    ensures entry + 1 + OffsetSize(IsSmall(tp)) <= |data|
  {
    EntryAt(IsSmall(tp), ValueTable(IsSmall(tp), IsObject(tp), EntryCount(tp, data)), i)
  }

  /** The type of value i and the offset it names. */
  function TypeOf(tp: byte, data: bytes, i: nat): (t: byte)
    requires Opens(tp, data) && i < EntryCount(tp, data)
  {
    data[EntryOf(tp, data, i)]
  }

  function OffsetOf(tp: byte, data: bytes, i: nat): (at: nat)
    requires Opens(tp, data) && i < EntryCount(tp, data)
  {
    Count(data, EntryOf(tp, data, i) + 1, IsSmall(tp))
  }

  /** The value loop of a container. */
  function ValuesFrom(tp: byte, data: bytes, i: nat, active: set<byte>, ignore: bool): (r: Decoded<seq<Json>>)
    requires Opens(tp, data) && i <= EntryCount(tp, data)
  {
    var n := EntryCount(tp, data);
    Values(data, IsSmall(tp), ValueTable(IsSmall(tp), IsObject(tp), n), n, i, active, ignore)
  }

  lemma ValuesNext(tp: byte, data: bytes, i: nat, active: set<byte>, ignore: bool)
    requires Opens(tp, data) && i <= EntryCount(tp, data)
    ensures i == EntryCount(tp, data) ==> ValuesFrom(tp, data, i, active, ignore) != Loops
    ensures i < EntryCount(tp, data) ==>
      var e := Entry(data, IsSmall(tp), EntryOf(tp, data, i), active, ignore);
      (ValuesFrom(tp, data, i, active, ignore) == Loops) ==
      (e == Loops || (e.Ok? && ValuesFrom(tp, data, i + 1, active, ignore) == Loops))
  {
  }

  /** No container inside, at any depth, has an entry for a container at offset 0. */
  predicate ForwardOffsets(tp: byte, data: bytes)
    decreases |data|
  {
    Opens(tp, data) ==>
      forall i :: 0 <= i < EntryCount(tp, data) && TypeOf(tp, data, i) in CONTAINERS ==>
        0 < OffsetOf(tp, data, i) && (OffsetOf(tp, data, i) <= |data| ==>
                                      ForwardOffsets(TypeOf(tp, data, i), data[OffsetOf(tp, data, i)..]))
  }

  lemma ContainerLoops(tp: byte, data: bytes, active: set<byte>, ignore: bool)
    requires tp in CONTAINERS && tp !in active
    ensures Decode(tp, data, active, ignore) == Loops <==>
      Opens(tp, data) && ValuesFrom(tp, data, 0, active + {tp}, ignore) == Loops
  {
  }

  lemma EntryLoops(tp: byte, data: bytes, i: nat, active: set<byte>, ignore: bool)
    requires Opens(tp, data) && i < EntryCount(tp, data)
    ensures Entry(data, IsSmall(tp), EntryOf(tp, data, i), active, ignore) == Loops <==>
      && TypeOf(tp, data, i) in CONTAINERS && OffsetOf(tp, data, i) <= |data|
      && if OffsetOf(tp, data, i) == 0 then Decode(TypeOf(tp, data, i), data, active, ignore) == Loops
         else Decode(TypeOf(tp, data, i), data[OffsetOf(tp, data, i)..], {}, ignore) == Loops
  {
    var t := TypeOf(tp, data, i);
    if t !in CONTAINERS { ScalarsReturn(t, ignore); }
  }

  lemma ScalarsReturn(t: byte, ignore: bool)
    requires t !in CONTAINERS
    ensures forall d: bytes, active: set<byte> :: Decode(t, d, active, ignore) != Loops
  {
  }

  /** Then every call returns, on malformed data as well. */
  lemma {:induction false} ForwardOffsetsReturn(tp: byte, data: bytes, active: set<byte>, ignore: bool)
    requires ForwardOffsets(tp, data) && tp !in active
    ensures Decode(tp, data, active, ignore) != Loops
    decreases |data|, 1, 0
  {
    if tp in CONTAINERS {
      ContainerLoops(tp, data, active, ignore);
      if Opens(tp, data) { ForwardValuesReturn(tp, data, 0, active + {tp}, ignore); }
    }
  }

  lemma {:induction false} ForwardValuesReturn(tp: byte, data: bytes, i: nat, active: set<byte>, ignore: bool)
    requires ForwardOffsets(tp, data) && Opens(tp, data) && i <= EntryCount(tp, data)
    ensures ValuesFrom(tp, data, i, active, ignore) != Loops
    decreases |data|, 0, EntryCount(tp, data) - i
  {
    ValuesNext(tp, data, i, active, ignore);
    if i < EntryCount(tp, data) {
      var at := OffsetOf(tp, data, i);
      EntryLoops(tp, data, i, active, ignore);
      if TypeOf(tp, data, i) in CONTAINERS && at <= |data| {
        ForwardOffsetsReturn(TypeOf(tp, data, i), data[at..], {}, ignore);
      }
      ForwardValuesReturn(tp, data, i + 1, active, ignore);
    }
  }

  /** The value loop gets to entry i: those before it have values. */
  predicate Reached(tp: byte, data: bytes, i: nat, active: set<byte>, ignore: bool)
    requires Opens(tp, data)
  {
    i < EntryCount(tp, data)
      && forall j :: 0 <= j < i ==> Entry(data, IsSmall(tp), EntryOf(tp, data, j), active, ignore).Ok?
  }

  /**
   Following the entries of `path`, one container inside the other, leads to a type
   that is already open on the same data: since then, every offset was 0.
   */
  predicate ComesBack(tp: byte, data: bytes, open: set<byte>, path: seq<nat>, ignore: bool)
    decreases |path|
  {
    tp in CONTAINERS &&
    if path == [] then tp in open
    else
      && tp !in open && Opens(tp, data) && Reached(tp, data, path[0], open + {tp}, ignore)
      && OffsetOf(tp, data, path[0]) <= |data|
      && var t, at := TypeOf(tp, data, path[0]), OffsetOf(tp, data, path[0]);
         if at == 0 then ComesBack(t, data, open + {tp}, path[1..], ignore)
         else ComesBack(t, data[at..], {}, path[1..], ignore)
  }

  lemma {:induction false} ValuesLoopAt(tp: byte, data: bytes, i: nat, k: nat, active: set<byte>, ignore: bool)
    requires Opens(tp, data) && Reached(tp, data, k, active, ignore) && i <= k
    requires Entry(data, IsSmall(tp), EntryOf(tp, data, k), active, ignore) == Loops
    ensures ValuesFrom(tp, data, i, active, ignore) == Loops
    decreases k - i
  {
    ValuesNext(tp, data, i, active, ignore);
    if i < k {
      assert Entry(data, IsSmall(tp), EntryOf(tp, data, i), active, ignore).Ok?;
      ValuesLoopAt(tp, data, i + 1, k, active, ignore);
    }
  }

  lemma {:induction false} FirstLoop(tp: byte, data: bytes, i: nat, active: set<byte>, ignore: bool) returns (k: nat)
    requires Opens(tp, data) && i <= EntryCount(tp, data)
    requires forall j :: 0 <= j < i ==> Entry(data, IsSmall(tp), EntryOf(tp, data, j), active, ignore).Ok?
    requires ValuesFrom(tp, data, i, active, ignore) == Loops
    ensures Reached(tp, data, k, active, ignore)
      && Entry(data, IsSmall(tp), EntryOf(tp, data, k), active, ignore) == Loops
    decreases EntryCount(tp, data) - i
  {
    ValuesNext(tp, data, i, active, ignore);
    k := i;
    if Entry(data, IsSmall(tp), EntryOf(tp, data, i), active, ignore) != Loops {
      k := FirstLoop(tp, data, i + 1, active, ignore);
    }
  }

  lemma {:induction false} ComingBackLoops(tp: byte, data: bytes, open: set<byte>, path: seq<nat>, ignore: bool)
    requires ComesBack(tp, data, open, path, ignore)
    ensures Decode(tp, data, open, ignore) == Loops
    decreases |path|
  {
    if path != [] {
      var k, active := path[0], open + {tp};
      var t, at := TypeOf(tp, data, k), OffsetOf(tp, data, k);
      if at == 0 {
        ComingBackLoops(t, data, active, path[1..], ignore);
      } else {
        ComingBackLoops(t, data[at..], {}, path[1..], ignore);
      }
      EntryLoops(tp, data, k, active, ignore);
      ValuesLoopAt(tp, data, 0, k, active, ignore);
      ContainerLoops(tp, data, open, ignore);
    }
  }

  lemma {:induction false} LoopingComesBack(tp: byte, data: bytes, open: set<byte>, ignore: bool)
    returns (path: seq<nat>)
    requires Decode(tp, data, open, ignore) == Loops
    ensures ComesBack(tp, data, open, path, ignore)
    decreases |data|, |CONTAINERS - open|
  {
    path := [];
    if tp !in open {
      if tp !in CONTAINERS { ScalarsReturn(tp, ignore); }
      ContainerLoops(tp, data, open, ignore);
      CardinalityDrops(CONTAINERS - (open + {tp}), CONTAINERS - open);
      var k := FirstLoop(tp, data, 0, open + {tp}, ignore);
      EntryLoops(tp, data, k, open + {tp}, ignore);
      var t, at := TypeOf(tp, data, k), OffsetOf(tp, data, k);
      var rest;
      if at == 0 {
        rest := LoopingComesBack(t, data, open + {tp}, ignore);
      } else {
        rest := LoopingComesBack(t, data[at..], {}, ignore);
      }
      path := [k] + rest;
      assert path[1..] == rest;
    }
  }

  ghost predicate SomePathComesBack(tp: byte, data: bytes, ignore: bool) {
    exists path :: ComesBack(tp, data, {}, path, ignore)
  }

  /**
   The decoder never returns exactly when some chain of entries comes back to a type already
   open on the same data.
   */
  lemma LoopsExactlyOnComingBack(tp: byte, data: bytes, ignore: bool)
    ensures NeverReturns(tp, data, ignore) <==> SomePathComesBack(tp, data, ignore)
  {
    LoopsExactlyWhenUnbounded(tp, data, ignore);
    if Decode(tp, data, {}, ignore) == Loops {
      var path := LoopingComesBack(tp, data, {}, ignore);
      assert ComesBack(tp, data, {}, path, ignore);
    } else {
      forall path ensures !ComesBack(tp, data, {}, path, ignore) {
        if ComesBack(tp, data, {}, path, ignore) { ComingBackLoops(tp, data, {}, path, ignore); }
      }
    }
  }

  // ----- the check that the value branch leaves out -----

  /** decodeValue if value offsets, like key offsets, had to lie past the header: recursion on ever shorter data. */
  function CheckedDecode(tp: byte, data: bytes, ignore: bool): (r: Decoded<Json>)
    ensures !r.Loops?
    decreases |data|, 2, 0
  {
    if tp !in CONTAINERS then
      match DecodeScalar(tp, data)
      case Ok(s) => Ok(JScalar(s))
      case Bad => Bad
    else
      var small, isObject := IsSmall(tp), IsObject(tp);
      var offsetSize := OffsetSize(small);
      if |data| < 2 * offsetSize then Bad
      else
        var count, size := Count(data, 0, small), Count(data, offsetSize, small);
        var headerSize := HeaderSize(small, isObject, count);
        if |data| < size then (if ignore then Ok(JScalar(NullLiteral)) else Bad)
        else if headerSize > size then Bad
        else
          match (if isObject then Keys(data, small, headerSize, count, 0) else Ok([]))
          case Bad => Bad
          case Ok(keys) =>
            match CheckedValues(data, small, headerSize, ValueTable(small, isObject, count), count, 0, ignore)
            case Bad => Bad
            case Ok(values) => Ok(if isObject then JObject(keys, values) else JArray(values))
  }

  function CheckedValues(data: bytes, small: bool, headerSize: nat, table: nat, count: nat, i: nat, ignore: bool)
    : (r: Decoded<seq<Json>>)
    requires i <= count && 0 < table && table + ValueEntries(small, count) == headerSize <= |data|
    ensures !r.Loops?
    decreases |data|, 1, count - i
  {
    if i == count then Ok([])
    else
      match CheckedEntry(data, small, headerSize, EntryAt(small, table, i), ignore)
      case Bad => Bad
      case Ok(v) =>
        match CheckedValues(data, small, headerSize, table, count, i + 1, ignore)
        case Bad => Bad
        case Ok(vs) => Ok([v] + vs)
  }

  function CheckedEntry(data: bytes, small: bool, headerSize: nat, entry: nat, ignore: bool): (r: Decoded<Json>)
    requires 0 < headerSize && 0 < entry && entry + 1 + OffsetSize(small) <= |data|
    ensures !r.Loops?
    decreases |data|, 0, 0
  {
    var tp := data[entry];
    if IsInline(tp, small) then CheckedDecode(tp, data[entry + 1..entry + 1 + OffsetSize(small)], ignore)
    else
      var at := Count(data, entry + 1, small);
      if headerSize <= at <= |data| then CheckedDecode(tp, data[at..], ignore) else Bad
  }

  /** The check would make every call return, and every value it accepts is decoded as it is now. */
  lemma {:induction false} CheckIsEnough(tp: byte, data: bytes, active: set<byte>, ignore: bool)
    requires CheckedDecode(tp, data, ignore).Ok? && tp !in active
    ensures Decode(tp, data, active, ignore) == CheckedDecode(tp, data, ignore)
    decreases |data|, 2, 0
  {
    if tp in CONTAINERS {
      var small, isObject := IsSmall(tp), IsObject(tp);
      var count := Count(data, 0, small);
      if Count(data, OffsetSize(small), small) <= |data| {
        ValuesCheckIsEnough(data, small, HeaderSize(small, isObject, count), ValueTable(small, isObject, count), count,
          0, active + {tp}, ignore);
      }
    }
  }

  lemma {:induction false} ValuesCheckIsEnough(data: bytes, small: bool, headerSize: nat, table: nat, count: nat,
                                               i: nat, active: set<byte>, ignore: bool)
    requires i <= count && 0 < table && table + ValueEntries(small, count) == headerSize <= |data|
    requires CheckedValues(data, small, headerSize, table, count, i, ignore).Ok?
    ensures Values(data, small, table, count, i, active, ignore)
      == CheckedValues(data, small, headerSize, table, count, i, ignore)
    decreases |data|, 1, count - i
  {
    if i < count {
      var entry := EntryAt(small, table, i);
      EntryCheckIsEnough(data, small, headerSize, entry, active, ignore);
      ValuesCheckIsEnough(data, small, headerSize, table, count, i + 1, active, ignore);
      ValueStep(data, small, table, count, i, active, ignore, CheckedEntry(data, small, headerSize, entry, ignore).v,
                CheckedValues(data, small, headerSize, table, count, i + 1, ignore).v);
    }
  }

  lemma {:induction false} EntryCheckIsEnough(data: bytes, small: bool, headerSize: nat, entry: nat, active: set<byte>,
                                              ignore: bool)
    requires 0 < headerSize && 0 < entry && entry + 1 + OffsetSize(small) <= |data|
    requires CheckedEntry(data, small, headerSize, entry, ignore).Ok?
    ensures Entry(data, small, entry, active, ignore) == CheckedEntry(data, small, headerSize, entry, ignore)
    decreases |data|, 0, 0
  {
    if IsInline(data[entry], small) {
      CheckIsEnough(data[entry], data[entry + 1..entry + 1 + OffsetSize(small)], {}, ignore);
    } else {
      CheckIsEnough(data[entry], data[Count(data, entry + 1, small)..], {}, ignore);
    }
  }

  /** An array of one value that is the array itself: the decoder never returns. */
  lemma SelfReference(ignore: bool)
    ensures DecodeDocument([2, 1, 0, 7, 0, 2, 0, 0], ignore) == Loops
  {
    var data: bytes := [1, 0, 7, 0, 2, 0, 0];
    assert [2, 1, 0, 7, 0, 2, 0, 0][1..] == data;
    assert data[0..2] == [1, 0] && data[2..4] == [7, 0] && data[5..7] == [0, 0];
    assert Count(data, 0, true) == 1 && Count(data, 2, true) == 7 && Count(data, 5, true) == 0;
    assert Entry(data, true, EntryAt(true, 4, 0), {} + {2}, ignore) == Loops;
    assert Values(data, true, 4, 1, 0, {} + {2}, ignore) == Loops;
    assert Container(2, data, {}, ignore) == Loops;
  }
}
