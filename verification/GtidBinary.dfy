/**
 The binary form of GTID sets (Encode, DecodeMysqlGTIDSet, encodeSid and
 DecodeSid in mysql/mysql_gtid.go), in the classic format and in the tagged
 one. Keys are written in sorted order, so equal sets have equal bytes.
 */
module GtidBinary {
  import opened Bytes
  import opened GtidSet
  import opened Intervals
  import opened Lists

  // ----- sorted keys -----

  /** bytes.Compare(a, b) < 0 and strings.Compare(a, b) < 0. */
  predicate Less(a: bytes, b: bytes) {
    b != [] && (a == [] || a[0] < b[0] || (a[0] == b[0] && Less(a[1..], b[1..])))
  }

  lemma {:induction false} LessIsTotal(a: bytes, b: bytes)
    ensures Less(a, b) || a == b || Less(b, a)
    ensures !(Less(a, b) && Less(b, a)) && !Less(a, a)
  {
    if a != [] {
      if b != [] {
        LessIsTotal(a[1..], b[1..]);
        HeadTail(a);
        HeadTail(b);
      }
      LessIsTotal(a[1..], a[1..]);
    }
  }

  lemma {:induction false} LessIsTransitive(a: bytes, b: bytes, c: bytes)
    requires Less(a, b) && Less(b, c)
    ensures Less(a, c)
  {
    if a != [] && a[0] == b[0] && b[0] == c[0] { LessIsTransitive(a[1..], b[1..], c[1..]); }
  }

  /** The first k bytes are the same and byte k decides. */
  ghost predicate DecidedAt(a: bytes, b: bytes, k: nat) {
    k <= |a| && k < |b| && a[..k] == b[..k] && (k == |a| || a[k] < b[k])
  }

  /** The order is that of the first difference, a prefix before what it begins. */
  lemma {:induction false} LessIs(a: bytes, b: bytes)
    ensures Less(a, b) <==> exists k: nat :: DecidedAt(a, b, k)
  {
    if Less(a, b) {
      if a == [] || a[0] < b[0] {
        assert DecidedAt(a, b, 0);
      } else {
        LessIs(a[1..], b[1..]);
        var k: nat :| DecidedAt(a[1..], b[1..], k);
        DecidedLater(a, b, k);
      }
    }
    if exists k: nat :: DecidedAt(a, b, k) {
      var k: nat :| DecidedAt(a, b, k);
      if k > 0 {
        LessIs(a[1..], b[1..]);
        DecidedEarlier(a, b, k);
      }
    }
  }

  lemma DecidedLater(a: bytes, b: bytes, k: nat)
    requires a != [] && b != [] && a[0] == b[0] && DecidedAt(a[1..], b[1..], k)
    ensures DecidedAt(a, b, k + 1)
  {
    assert a[..k + 1] == [a[0]] + a[1..][..k] && b[..k + 1] == [b[0]] + b[1..][..k];
  }

  lemma DecidedEarlier(a: bytes, b: bytes, k: nat)
    requires k > 0 && DecidedAt(a, b, k)
    ensures a != [] && b != [] && a[0] == b[0] && DecidedAt(a[1..], b[1..], k - 1)
  {
    assert a[0] == a[..k][0] && b[0] == b[..k][0];
    assert a[1..][..k - 1] == a[..k][1..] && b[1..][..k - 1] == b[..k][1..];
  }

  predicate Increasing(ks: seq<bytes>) { |ks| < 2 || (Less(ks[0], ks[1]) && Increasing(ks[1..])) }

  function InsertKey(k: bytes, ks: seq<bytes>): (r: seq<bytes>) {
    if ks == [] || Less(k, ks[0]) then [k] + ks else [ks[0]] + InsertKey(k, ks[1..])
  }

  lemma {:induction false} InsertKeyKeeps(k: bytes, ks: seq<bytes>)
    requires Increasing(ks) && k !in ks
    ensures Increasing(InsertKey(k, ks))
    ensures forall x :: x in InsertKey(k, ks) <==> x == k || x in ks
    ensures InsertKey(k, ks)[0] == k || (ks != [] && InsertKey(k, ks)[0] == ks[0])
  {
    if ks != [] {
      HeadTail(ks);
      if Less(k, ks[0]) {
        assert ([k] + ks)[1..] == ks;
      } else {
        InsertKeyKeeps(k, ks[1..]);
        var r := InsertKey(k, ks[1..]);
        assert ([ks[0]] + r)[1..] == r;
        LessIsTotal(k, ks[0]);
      }
    }
  }

  /** The keys of a map, sorted. */
  ghost function SortKeys(keys: set<bytes>): (ks: seq<bytes>)
    ensures Increasing(ks) && forall k :: k in ks <==> k in keys
  {
    if keys == {} then []
    else
      var k :| k in keys;
      var rest := SortKeys(keys - {k});
      InsertKeyKeeps(k, rest);
      InsertKey(k, rest)
  }

  lemma {:induction false} FirstKeyIsLeast(ks: seq<bytes>, k: bytes)
    requires Increasing(ks) && k in ks
    ensures k == ks[0] || Less(ks[0], k)
  {
    if k != ks[0] {
      HeadTail(ks);
      FirstKeyIsLeast(ks[1..], k);
      if k != ks[1] { LessIsTransitive(ks[0], ks[1], k); }
    }
  }

  lemma HeadNotInTail(ks: seq<bytes>)
    requires Increasing(ks) && ks != []
    ensures ks[0] !in ks[1..]
  {
    if ks[0] in ks[1..] {
      FirstKeyIsLeast(ks[1..], ks[0]);
      LessIsTotal(ks[0], ks[1]);
    }
  }

  /** Sorting the same keys gives the same list, in whatever order they were collected. */
  lemma {:induction false} IncreasingIsUnique(a: seq<bytes>, b: seq<bytes>)
    requires Increasing(a) && Increasing(b) && forall k :: k in a <==> k in b
    ensures a == b
    decreases |a|
  {
    if b != [] { assert b[0] in b; }
    if a != [] {
      assert a[0] in b;
      assert b[0] in a;
      FirstKeyIsLeast(a, b[0]);
      FirstKeyIsLeast(b, a[0]);
      LessIsTotal(a[0], b[0]);
      HeadTail(a);
      HeadTail(b);
      HeadNotInTail(a);
      HeadNotInTail(b);
      forall k ensures k in a[1..] <==> k in b[1..] {
        assert k in a <==> k == a[0] || k in a[1..];
        assert k in b <==> k == b[0] || k in b[1..];
      }
      IncreasingIsUnique(a[1..], b[1..]);
    }
  }

  /** Collecting the keys in any order and sorting them. */
  method CollectSorted(keys: set<bytes>) returns (ks: seq<bytes>)
    ensures ks == SortKeys(keys)
  {
    ks := [];
    var left := keys;
    while left != {}
      invariant left <= keys && Increasing(ks) && forall k :: k in ks <==> k in keys && k !in left
      decreases |left|
    {
      var k :| k in left;
      InsertKeyKeeps(k, ks);
      ks := InsertKey(k, ks);
      left := left - {k};
    }
    IncreasingIsUnique(ks, SortKeys(keys));
  }

  // ----- the entries of a set -----

  datatype Sid = Sid(uuid: Uuid, tag: Tag, ivs: seq<Interval>)

  ghost function SidsOfUuid(u: Uuid, ts: seq<Tag>, m: Slices): (es: seq<Sid>)
    requires forall t :: t in ts ==> t in m
    ensures |es| == |ts|
  {
    if ts == [] then [] else [Sid(u, ts[0], m[ts[0]])] + SidsOfUuid(u, ts[1..], m)
  }

  ghost function SidsOf(us: seq<Uuid>, s: Gtids): (es: seq<Sid>)
    requires forall u :: u in us ==> u in s
  {
    if us == [] then [] else SidsOfUuid(us[0], SortKeys(s[us[0]].Keys), s[us[0]]) + SidsOf(us[1..], s)
  }

  /** All entries, by uuid and then by tag. */
  ghost function Listing(s: Gtids): (es: seq<Sid>) { SidsOf(SortKeys(s.Keys), s) }

  function Get(s: Gtids, u: Uuid, t: Tag): (r: Option<seq<Interval>>) {
    if u in s && t in s[u] then Some(s[u][t]) else None
  }

  function Join(a: Option<seq<Interval>>, b: Option<seq<Interval>>): (r: Option<seq<Interval>>) {
    if a.None? then b else if b.None? then a else Some(a.value + b.value)
  }

  lemma JoinAssoc(a: Option<seq<Interval>>, b: Option<seq<Interval>>, c: Option<seq<Interval>>)
    ensures Join(a, Join(b, c)) == Join(Join(a, b), c)
  {
    if a.Some? && b.Some? && c.Some? { ConcatAssoc(a.value, b.value, c.value); }
  }

  /** Everything a list of entries says about one key. */
  function Lookup(es: seq<Sid>, u: Uuid, t: Tag): (r: Option<seq<Interval>>) {
    if es == [] then None
    else Join(if es[0].uuid == u && es[0].tag == t then Some(es[0].ivs) else None, Lookup(es[1..], u, t))
  }

  lemma {:induction false} LookupSum(a: seq<Sid>, b: seq<Sid>, u: Uuid, t: Tag)
    ensures Lookup(a + b, u, t) == Join(Lookup(a, u, t), Lookup(b, u, t))
  {
    if a == [] {
      assert a + b == b;
    } else {
      DropConcat(a, b, 1);
      LookupSum(a[1..], b, u, t);
      JoinAssoc(if a[0].uuid == u && a[0].tag == t then Some(a[0].ivs) else None,
                Lookup(a[1..], u, t), Lookup(b, u, t));
    }
  }

  lemma {:induction false} LookupOfUuid(u: Uuid, ts: seq<Tag>, m: Slices, v: Uuid, t: Tag)
    requires (forall k :: k in ts ==> k in m) && Increasing(ts)
    ensures Lookup(SidsOfUuid(u, ts, m), v, t) == if v == u && t in ts then Some(m[t]) else None
  {
    if ts != [] {
      LookupOfUuid(u, ts[1..], m, v, t);
      HeadNotInTail(ts);
      HeadTail(ts);
      var rest := SidsOfUuid(u, ts[1..], m);
      assert ([Sid(u, ts[0], m[ts[0]])] + rest)[1..] == rest;
    }
  }

  lemma {:induction false} LookupOfSids(us: seq<Uuid>, s: Gtids, v: Uuid, t: Tag)
    requires (forall u :: u in us ==> u in s) && Increasing(us)
    ensures Lookup(SidsOf(us, s), v, t) == if v in us then Get(s, v, t) else None
  {
    if us != [] {
      var u := us[0];
      LookupOfUuid(u, SortKeys(s[u].Keys), s[u], v, t);
      LookupOfSids(us[1..], s, v, t);
      LookupSum(SidsOfUuid(u, SortKeys(s[u].Keys), s[u]), SidsOf(us[1..], s), v, t);
      HeadNotInTail(us);
      HeadTail(us);
    }
  }

  /** The listing says exactly what the set holds. */
  lemma ListingLooksUp(s: Gtids, u: Uuid, t: Tag)
    ensures Lookup(Listing(s), u, t) == Get(s, u, t)
  {
    LookupOfSids(SortKeys(s.Keys), s, u, t);
  }

  // ----- the writer -----

  /** Tag.MarshalBinary; tags that are too long are reported and left out. */
  function TagBytes(t: Tag): (b: bytes) { if |t| > 32 then [] else [2 * |t|] + t }

  function IntervalBytes(iv: Interval): (b: bytes)
    requires FitsSigned(8, iv.start) && FitsSigned(8, iv.stop)
    ensures |b| == 16
  {
    LE(8, ToUnsigned(8, iv.start)) + LE(8, ToUnsigned(8, iv.stop))
  }

  predicate Int64s(ivs: seq<Interval>) {
    ivs == [] || (FitsSigned(8, ivs[0].start) && FitsSigned(8, ivs[0].stop) && Int64s(ivs[1..]))
  }

  function IntervalsBytes(ivs: seq<Interval>): (b: bytes)
    requires Int64s(ivs)
    ensures |b| == 16 * |ivs|
  {
    if ivs == [] then [] else IntervalBytes(ivs[0]) + IntervalsBytes(ivs[1..])
  }

  function SidBytes(e: Sid, tagged: bool): (b: bytes)
    requires Int64s(e.ivs)
  {
    e.uuid + (if tagged then TagBytes(e.tag) else []) + (LE(8, |e.ivs|) + IntervalsBytes(e.ivs))
  }

  predicate AllInt64(es: seq<Sid>) { es == [] || (Int64s(es[0].ivs) && AllInt64(es[1..])) }

  function SidsBytes(es: seq<Sid>, tagged: bool): (b: bytes)
    requires AllInt64(es)
  {
    if es == [] then [] else SidBytes(es[0], tagged) + SidsBytes(es[1..], tagged)
  }

  predicate HasTag(es: seq<Sid>) { es != [] && (es[0].tag != NO_TAG || HasTag(es[1..])) }

  /** encodeSid: the count, shifted by a byte in the tagged format to make room for two markers. */
  function EncodeSid(tagged: bool, n: nat): (b: bytes)
    ensures |b| == 8
  {
    if tagged then [1] + LE(6, n) + [1] else LE(8, n)
  }

  ghost function Encoded(s: Gtids): (b: bytes)
    requires AllInt64(Listing(s))
  {
    var es := Listing(s);
    EncodeSid(HasTag(es), |es|) + SidsBytes(es, HasTag(es))
  }

  // ----- the reader -----

  predicate IsSpace(b: byte) { b == 9 || b == 10 || b == 11 || b == 12 || b == 13 || b == 32 }

  function Lower(b: bytes): (r: bytes)
    ensures |r| == |b|
  {
    seq(|b|, i requires 0 <= i < |b| => if 65 <= b[i] <= 90 then b[i] + 32 else b[i])
  }

  function Trim(b: bytes): (r: bytes)
    decreases |b|
  {
    if b == [] then []
    else if IsSpace(b[0]) then Trim(b[1..])
    else if IsSpace(b[|b| - 1]) then Trim(b[..|b| - 1])
    else b
  }

  /** NewTag on ASCII. */
  function NewTag(b: bytes): (t: Tag) { Trim(Lower(b)) }

  /** DecodeSid */
  function DecodeSid(data: bytes): (r: Option<(bool, nat)>) {
    if |data| < 8 then None
    else if data[7] == 1 then Some((true, FromLE(data[1..7])))
    else Some((false, FromLE(data[..8])))
  }

  function ReadIntervals(d: bytes, k: nat): (ivs: seq<Interval>)
    requires 16 * k <= |d|
    ensures |ivs| == k
  {
    if k == 0 then []
    else [Interval(ToSigned(8, FromLE(d[..8])), ToSigned(8, FromLE(d[8..16])))] + ReadIntervals(d[16..], k - 1)
  }

  /** The tag of an entry, and what is left; classic entries have none. */
  function ReadTag(d: bytes, tagged: bool): (r: Option<(Tag, bytes)>)
    ensures r.Some? ==> |r.value.1| <= |d|
  {
    if !tagged then Some((NO_TAG, d))
    else if d == [] || 1 + d[0] / 2 > |d| then None
    else Some((NewTag(d[1..1 + d[0] / 2]), d[1 + d[0] / 2..]))
  }

  /** One entry off the front. */
  function ReadSid(d: bytes, tagged: bool): (r: Option<(Sid, bytes)>)
    ensures r.Some? ==> |r.value.1| < |d|
  {
    if |d| < 16 then None
    else match ReadTag(d[16..], tagged)
      case None => None
      case Some((tag, rest)) =>
        if |rest| < 8 then None
        else
          var count := FromLE(rest[..8]);
          if count == 0 || count > MAX_INT64 / 16 || |rest| < 8 + 16 * count then None
          else Some((Sid(d[..16], tag, ReadIntervals(rest[8..], count)), rest[8 + 16 * count..]))
  }

  /** How an entry joins what was read before. */
  function Include(s: Gtids, e: Sid): (r: Gtids) {
    if e.uuid in s then s[e.uuid := s[e.uuid][e.tag := Entry(s, e.uuid, e.tag) + e.ivs]]
    else s[e.uuid := map[e.tag := e.ivs]]
  }

  function ReadSids(d: bytes, n: nat, tagged: bool, s: Gtids): (r: Option<(Gtids, bytes)>)
    decreases n
  {
    if n == 0 then Some((s, d))
    else match ReadSid(d, tagged)
      case None => None
      case Some((e, rest)) => ReadSids(rest, n - 1, tagged, Include(s, e))
  }

  function NormalSlices(m: Slices): (r: Slices) { map t | t in m :: Normal(m[t]) }

  function NormalAll(s: Gtids): (r: Gtids) { map u | u in s :: NormalSlices(s[u]) }

  /** DecodeMysqlGTIDSet; None is an error. */
  function Decoded(data: bytes): (r: Option<Gtids>) {
    match DecodeSid(data)
    case None => None
    case Some((tagged, n)) =>
      match ReadSids(data[8..], n, tagged, map[])
      case None => None
      case Some((s, rest)) => if rest == [] then Some(NormalAll(s)) else None
  }

  // ----- when the reader panics -----

  /**
   The interval count of the first entry passes the test against math.MaxInt, but the
   end it claims, counted from the start of the `total` bytes, does not fit an int: the
   length test compares with a negative number, and the slice cannot be made.
   */
  predicate CountOverflows(d: bytes, total: nat, tagged: bool) {
    |d| >= 16 &&
    match ReadTag(d[16..], tagged)
    case None => false
    case Some((_, rest)) =>
      |rest| >= 8 && 0 < FromLE(rest[..8]) <= MAX_INT64 / 16 && total - |rest| + 8 + 16 * FromLE(rest[..8]) > MAX_INT64
  }

  predicate Panics(d: bytes, n: nat, total: nat, tagged: bool)
    decreases n
  {
    n > 0 && (CountOverflows(d, total, tagged) ||
              (ReadSid(d, tagged).Some? && Panics(ReadSid(d, tagged).value.1, n - 1, total, tagged)))
  }

  predicate DecodePanics(data: bytes) {
    match DecodeSid(data)
    case None => false
    case Some((tagged, n)) => Panics(data[8..], n, |data|, tagged)
  }

  /** What is left after k entries. */
  function AfterSids(d: bytes, k: nat, tagged: bool): (r: Option<bytes>)
    decreases k
  {
    if k == 0 then Some(d)
    else match ReadSid(d, tagged)
      case None => None
      case Some((_, rest)) => AfterSids(rest, k - 1, tagged)
  }

  ghost predicate OverflowsAfter(d: bytes, k: nat, total: nat, tagged: bool) {
    AfterSids(d, k, tagged).Some? && CountOverflows(AfterSids(d, k, tagged).value, total, tagged)
  }

  /** A call panics exactly when, after some number of sound entries, a count passes its test and its end overflows. */
  lemma {:induction false} PanicsExactly(d: bytes, n: nat, total: nat, tagged: bool)
    ensures Panics(d, n, total, tagged) <==> exists k :: 0 <= k < n && OverflowsAfter(d, k, total, tagged)
    decreases n
  {
    if n > 0 {
      if CountOverflows(d, total, tagged) { assert OverflowsAfter(d, 0, total, tagged); }
      match ReadSid(d, tagged) {
        case None =>
          forall k | 0 < k < n ensures !OverflowsAfter(d, k, total, tagged) { }
        case Some((e, rest)) =>
          PanicsExactly(rest, n - 1, total, tagged);
          forall k: nat | k < n - 1
            ensures OverflowsAfter(d, k + 1, total, tagged) == OverflowsAfter(rest, k, total, tagged) { }
          forall k | 0 < k < n
            ensures OverflowsAfter(d, k, total, tagged) == OverflowsAfter(rest, k - 1, total, tagged) { }
      }
    }
  }

  /** Such an entry is never read, so a set that is decoded was decoded without a panic. */
  lemma {:induction false} ReadWithoutPanic(d: bytes, n: nat, total: nat, tagged: bool, s: Gtids)
    requires |d| <= total <= MAX_INT64 && ReadSids(d, n, tagged, s).Some?
    ensures !Panics(d, n, total, tagged)
    decreases n
  {
    if n > 0 {
      var e := ReadSid(d, tagged).value;
      ReadWithoutPanic(e.1, n - 1, total, tagged, Include(s, e.0));
    }
  }

  lemma DecodedWithoutPanic(data: bytes)
    requires |data| <= MAX_INT64 && Decoded(data).Some?
    ensures !DecodePanics(data)
  {
    var head := DecodeSid(data).value;
    ReadWithoutPanic(data[8..], head.1, |data|, head.0, map[]);
  }

  /** One classic entry of 2^59 - 1 intervals: 32 bytes on which the reader panics. */
  lemma HugeCountPanics(u: Uuid)
    requires |u| == 16
    ensures DecodePanics(LE(8, 1) + u + LE(8, MAX_INT64 / 16))
  {
    var h, c := LE(8, 1), LE(8, MAX_INT64 / 16);
    var d := h + u + c;
    assert Pow256(8) == 0x1_0000_0000_0000_0000;
    LittleEndianRoundTrip(8, MAX_INT64 / 16);
    CountRoundTrip(false, 1, u + c);
    ConcatAssoc(h, u, c);
    HugeCount(u, c, |d|);
  }

  lemma HugeCount(u: Uuid, c: bytes, total: nat)
    requires |u| == 16 && |c| == 8 && FromLE(c) == MAX_INT64 / 16 && total >= 32
    ensures CountOverflows(u + c, total, false)
  {
    assert (u + c)[16..] == c && c[..8] == c;
  }

  // ----- reading what was written -----

  predicate TagByte(b: byte) { 97 <= b <= 122 || 48 <= b <= 57 || b == 95 }

  /** Lower-case letters, digits and underscores, at most 32 of them. */
  predicate GoodTag(t: Tag) { |t| <= 32 && forall i :: 0 <= i < |t| ==> TagByte(t[i]) }

  predicate GoodSid(e: Sid, tagged: bool) {
    |e.uuid| == 16 && GoodTag(e.tag) && (!tagged ==> e.tag == NO_TAG)
    && e.ivs != [] && |e.ivs| <= MAX_INT64 / 16 && Int64s(e.ivs)
  }

  predicate GoodSids(es: seq<Sid>, tagged: bool) { es == [] || (GoodSid(es[0], tagged) && GoodSids(es[1..], tagged)) }

  lemma NewTagKeeps(t: Tag)
    requires GoodTag(t)
    ensures NewTag(t) == t
  {
    assert Lower(t) == t;
  }

  lemma TakeDrop(a: bytes, rest: bytes)
    ensures (a + rest)[..|a|] == a && (a + rest)[|a|..] == rest
  {
  }

  lemma NumberRoundTrip64(i: int, rest: bytes)
    requires FitsSigned(8, i)
    ensures var e := LE(8, ToUnsigned(8, i)) + rest; ToSigned(8, FromLE(e[..8])) == i && e[8..] == rest
  {
    SignedRoundTrip(8, i);
    LittleEndianRoundTrip(8, ToUnsigned(8, i));
    TakeDrop(LE(8, ToUnsigned(8, i)), rest);
  }

  lemma IntervalRoundTrip(iv: Interval, rest: bytes)
    requires FitsSigned(8, iv.start) && FitsSigned(8, iv.stop)
    ensures var d := IntervalBytes(iv) + rest;
      Interval(ToSigned(8, FromLE(d[..8])), ToSigned(8, FromLE(d[8..16]))) == iv && d[16..] == rest
  {
    var a, b := LE(8, ToUnsigned(8, iv.start)), LE(8, ToUnsigned(8, iv.stop));
    ConcatAssoc(a, b, rest);
    NumberRoundTrip64(iv.start, b + rest);
    NumberRoundTrip64(iv.stop, rest);
    Middle(a, b, rest);
    TakeDrop(a + b, rest);
    assert (b + rest)[..8] == b;
  }

  lemma {:induction false} IntervalsRoundTrip(ivs: seq<Interval>, rest: bytes)
    requires Int64s(ivs)
    ensures ReadIntervals(IntervalsBytes(ivs) + rest, |ivs|) == ivs
  {
    if ivs != [] {
      var tail := IntervalsBytes(ivs[1..]);
      ConcatAssoc(IntervalBytes(ivs[0]), tail, rest);
      IntervalRoundTrip(ivs[0], tail + rest);
      IntervalsRoundTrip(ivs[1..], rest);
      HeadTail(ivs);
    }
  }

  lemma TagRoundTrip(t: Tag, tagged: bool, rest: bytes)
    requires GoodTag(t) && (!tagged ==> t == NO_TAG)
    ensures ReadTag((if tagged then TagBytes(t) else []) + rest, tagged) == Some((t, rest))
  {
    if tagged {
      NewTagKeeps(t);
      Middle([2 * |t|], t, rest);
    } else {
      assert [] + rest == rest;
    }
  }

  lemma SidRoundTrip(e: Sid, tagged: bool, rest: bytes)
    requires GoodSid(e, tagged)
    ensures ReadSid(SidBytes(e, tagged) + rest, tagged) == Some((e, rest))
  {
    var tag, ivs := if tagged then TagBytes(e.tag) else [], IntervalsBytes(e.ivs);
    var body := LE(8, |e.ivs|) + ivs;
    var d := SidBytes(e, tagged) + rest;
    ConcatPair(e.uuid, tag, body, rest);
    ConcatAssoc(e.uuid, tag, body);
    ConcatAssoc(e.uuid, tag, body + rest);
    TakeDrop(e.uuid, tag + (body + rest));
    TagRoundTrip(e.tag, tagged, body + rest);
    BodyRoundTrip(e.ivs, rest, body + rest);
  }

  lemma BodyRoundTrip(ivs: seq<Interval>, rest: bytes, d: bytes)
    requires Int64s(ivs) && |ivs| <= MAX_INT64 / 16 && d == LE(8, |ivs|) + IntervalsBytes(ivs) + rest
    ensures FromLE(d[..8]) == |ivs| && |d| >= 8 + 16 * |ivs|
    ensures ReadIntervals(d[8..], |ivs|) == ivs && d[8 + 16 * |ivs|..] == rest
  {
    var c, b := LE(8, |ivs|), IntervalsBytes(ivs);
    assert Pow256(8) == 0x1_0000_0000_0000_0000;
    LittleEndianRoundTrip(8, |ivs|);
    Middle(c, b, rest);
    ConcatAssoc(c, b, rest);
    TakeDrop(c, b + rest);
    IntervalsRoundTrip(ivs, rest);
  }

  function IncludeAll(s: Gtids, es: seq<Sid>): (r: Gtids)
    decreases |es|
  {
    if es == [] then s else IncludeAll(Include(s, es[0]), es[1..])
  }

  lemma {:induction false} SidsRoundTrip(es: seq<Sid>, n: nat, tagged: bool, s: Gtids, d: bytes, r: Gtids)
    requires GoodSids(es, tagged) && AllInt64(es) && d == SidsBytes(es, tagged) && r == IncludeAll(s, es) && n == |es|
    ensures ReadSids(d, n, tagged, s) == Some((r, []))
    decreases n
  {
    if n > 0 {
      var tail, next := SidsBytes(es[1..], tagged), Include(s, es[0]);
      FirstSid(es, tagged, tail, d);
      IncludeAllStep(s, es);
      SidsRoundTrip(es[1..], n - 1, tagged, next, tail, r);
      ReadSidsStep(d, n, tagged, s, es[0], tail, next, Some((r, [])));
    }
  }

  lemma FirstSid(es: seq<Sid>, tagged: bool, tail: bytes, d: bytes)
    requires es != [] && GoodSids(es, tagged) && AllInt64(es) && d == SidsBytes(es, tagged)
      && tail == SidsBytes(es[1..], tagged)
    ensures ReadSid(d, tagged) == Some((es[0], tail))
  {
    SidRoundTrip(es[0], tagged, tail);
  }

  lemma IncludeAllStep(s: Gtids, es: seq<Sid>)
    requires es != []
    ensures IncludeAll(s, es) == IncludeAll(Include(s, es[0]), es[1..])
  {
  }

  lemma ReadSidsStep(d: bytes, n: nat, tagged: bool, s: Gtids, e: Sid, rest: bytes, next: Gtids,
                     r: Option<(Gtids, bytes)>)
    requires n > 0 && ReadSid(d, tagged) == Some((e, rest)) && next == Include(s, e)
      && ReadSids(rest, n - 1, tagged, next) == r
    ensures ReadSids(d, n, tagged, s) == r
  {
  }

  ghost predicate NoEmpty(s: Gtids) { forall u :: u in s ==> s[u] != map[] }

  lemma IncludeGets(s: Gtids, e: Sid, u: Uuid, t: Tag)
    ensures Get(Include(s, e), u, t) == Join(Get(s, u, t), if e.uuid == u && e.tag == t then Some(e.ivs) else None)
    ensures NoEmpty(s) ==> NoEmpty(Include(s, e))
  {
    if e.uuid in s && e.tag !in s[e.uuid] { assert [] + e.ivs == e.ivs; }
    if NoEmpty(s) {
      var r := Include(s, e);
      forall v | v in r ensures r[v] != map[] { if v == e.uuid { assert e.tag in r[v]; } }
    }
  }

  lemma {:induction false} IncludeAllGets(s: Gtids, es: seq<Sid>, u: Uuid, t: Tag)
    ensures Get(IncludeAll(s, es), u, t) == Join(Get(s, u, t), Lookup(es, u, t))
    ensures NoEmpty(s) ==> NoEmpty(IncludeAll(s, es))
    decreases |es|
  {
    if es != [] {
      IncludeGets(s, es[0], u, t);
      IncludeAllGets(Include(s, es[0]), es[1..], u, t);
      JoinAssoc(Get(s, u, t), if es[0].uuid == u && es[0].tag == t then Some(es[0].ivs) else None,
                Lookup(es[1..], u, t));
    }
  }

  /** Maps without empty entries are told apart by what they hold. */
  lemma SameGets(a: Gtids, b: Gtids)
    requires NoEmpty(a) && NoEmpty(b) && forall u, t :: Get(a, u, t) == Get(b, u, t)
    ensures a == b
  {
    forall u | u in a ensures u in b && a[u] == b[u] { SameEntry(a, b, u); }
    forall u | u in b ensures u in a { SameEntry(b, a, u); }
    assert a.Keys == b.Keys;
  }

  lemma SameEntry(a: Gtids, b: Gtids, u: Uuid)
    requires NoEmpty(a) && u in a && forall u, t :: Get(a, u, t) == Get(b, u, t)
    ensures u in b && a[u] == b[u]
  {
    var t0 :| t0 in a[u];
    assert Get(a, u, t0) == Get(b, u, t0);
    forall t | t in a[u] ensures t in b[u] && a[u][t] == b[u][t] { assert Get(a, u, t) == Get(b, u, t); }
    forall t | t in b[u] ensures t in a[u] { assert Get(a, u, t) == Get(b, u, t); }
    assert a[u].Keys == b[u].Keys;
  }

  /** Collecting the listing of a set gives the set back. */
  lemma ListingCollects(s: Gtids)
    requires WellFormed(s)
    ensures IncludeAll(map[], Listing(s)) == s
  {
    var r := IncludeAll(map[], Listing(s));
    forall u, t ensures Get(r, u, t) == Get(s, u, t) {
      IncludeAllGets(map[], Listing(s), u, t);
      ListingLooksUp(s, u, t);
    }
    IncludeAllGets(map[], Listing(s), [], []);
    SameGets(r, s);
  }

  lemma NormalAllKeeps(s: Gtids)
    requires WellFormed(s)
    ensures NormalAll(s) == s
  {
    forall u | u in s ensures NormalSlices(s[u]) == s[u] { NormalSlicesKeeps(s[u]); }
  }

  lemma NormalSlicesKeeps(m: Slices)
    requires SlicesFormed(m)
    ensures NormalSlices(m) == m
  {
    forall t | t in m ensures Normal(m[t]) == m[t] { NormalTwice(m[t]); }
  }

  lemma CountRoundTrip(tagged: bool, n: nat, rest: bytes)
    requires n < Pow256(6)
    ensures var d := EncodeSid(tagged, n) + rest; DecodeSid(d) == Some((tagged, n)) && d[8..] == rest
  {
    var c := EncodeSid(tagged, n);
    TakeDrop(c, rest);
    if tagged {
      LittleEndianRoundTrip(6, n);
      Middle([1], LE(6, n), [1] + rest);
      assert c + rest == [1] + LE(6, n) + ([1] + rest);
    } else {
      assert Pow256(8) == 0x1_0000_0000_0000_0000 && Pow256(6) == 0x1_0000_0000_0000;
      LittleEndianRoundTrip(8, n);
      TopByteIsZero(n);
      assert (c + rest)[7] == c[7];
    }
  }

  /** Fewer than 2^48 entries leave the byte clear that marks the tagged format. */
  lemma TopByteIsZero(n: nat)
    requires n < Pow256(6)
    ensures LE(8, n)[7] == 0
  {
    assert Pow256(6) == 0x1_0000_0000_0000;
    assert Pow256(7) == 256 * Pow256(6);
    SmallTop(7, n);
  }

  lemma {:induction false} SmallTop(k: nat, n: nat)
    requires n < Pow256(k)
    ensures LE(k + 1, n)[k] == 0
  {
    if k > 0 { SmallTop(k - 1, n / 256); }
  }

  /**
   Decoding an encoded set gives the set back, with no byte left over, in
   whichever format its tags call for. The entries must fit the format.
   */
  lemma DecodeEncode(s: Gtids)
    requires WellFormed(s) && AllInt64(Listing(s)) && |Listing(s)| < Pow256(6)
    requires GoodSids(Listing(s), HasTag(Listing(s)))
    ensures Decoded(Encoded(s)) == Some(s)
  {
    var es := Listing(s);
    var tagged := HasTag(es);
    CountRoundTrip(tagged, |es|, SidsBytes(es, tagged));
    SidsRoundTrip(es, |es|, tagged, map[], SidsBytes(es, tagged), IncludeAll(map[], es));
    ListingCollects(s);
    NormalAllKeeps(s);
  }

  /** Sets with the same triples have the same bytes. */
  lemma EqualSetsEqualBytes(a: Gtids, b: Gtids)
    requires WellFormed(a) && WellFormed(b) && SameGtids(a, b) && AllInt64(Listing(a))
    ensures AllInt64(Listing(b)) && Encoded(a) == Encoded(b)
  {
    SameIsEqual(a, b);
  }

  // ----- Encode and Decode as the source runs them -----

  method EncodeIntervals(ivs: seq<Interval>) returns (b: bytes)
    requires Int64s(ivs)
    ensures b == IntervalsBytes(ivs)
  {
    b := [];
    var i := 0;
    assert ivs[0..] == ivs;
    while i < |ivs|
      invariant i <= |ivs| && Int64s(ivs[i..]) && b + IntervalsBytes(ivs[i..]) == IntervalsBytes(ivs)
    {
      assert ivs[i..][0] == ivs[i] && ivs[i..][1..] == ivs[i + 1..];
      ConcatAssoc(b, IntervalBytes(ivs[i]), IntervalsBytes(ivs[i + 1..]));
      b := b + IntervalBytes(ivs[i]);
      i := i + 1;
    }
    ConcatEmpty(b);
  }

  lemma {:induction false} BytesSum(a: seq<Sid>, b: seq<Sid>, tagged: bool)
    requires AllInt64(a + b)
    ensures AllInt64(a) && AllInt64(b) && SidsBytes(a + b, tagged) == SidsBytes(a, tagged) + SidsBytes(b, tagged)
  {
    if a == [] {
      assert a + b == b;
    } else {
      DropConcat(a, b, 1);
      BytesSum(a[1..], b, tagged);
      ConcatAssoc(SidBytes(a[0], tagged), SidsBytes(a[1..], tagged), SidsBytes(b, tagged));
    }
  }

  /** The inner loop: the entries of one server, by tag. */
  method EncodeTags(u: Uuid, m: Slices, tagged: bool) returns (b: bytes)
    requires AllInt64(SidsOfUuid(u, SortKeys(m.Keys), m))
    ensures b == SidsBytes(SidsOfUuid(u, SortKeys(m.Keys), m), tagged)
  {
    var tags := CollectSorted(m.Keys);
    b := [];
    var i := 0;
    assert tags[0..] == tags;
    while i < |tags|
      invariant i <= |tags| && AllInt64(SidsOfUuid(u, tags[i..], m))
      invariant b + SidsBytes(SidsOfUuid(u, tags[i..], m), tagged) == SidsBytes(SidsOfUuid(u, tags, m), tagged)
    {
      ghost var e := Sid(u, tags[i], m[tags[i]]);
      SidsStep(u, tags, m, i, tagged);
      var ivs := EncodeIntervals(m[tags[i]]);
      ConcatAssoc(b, SidBytes(e, tagged), SidsBytes(SidsOfUuid(u, tags[i + 1..], m), tagged));
      b := b + (u + (if tagged then TagBytes(tags[i]) else []) + (LE(8, |m[tags[i]]|) + ivs));
      i := i + 1;
    }
    ConcatEmpty(b);
  }

  lemma SidsStep(u: Uuid, tags: seq<Tag>, m: Slices, i: nat, tagged: bool)
    requires (forall t :: t in tags ==> t in m) && i < |tags| && AllInt64(SidsOfUuid(u, tags[i..], m))
    ensures var e, rest := Sid(u, tags[i], m[tags[i]]), SidsOfUuid(u, tags[i + 1..], m);
      Int64s(e.ivs) && AllInt64(rest)
        && SidsBytes(SidsOfUuid(u, tags[i..], m), tagged) == SidBytes(e, tagged) + SidsBytes(rest, tagged)
  {
    assert tags[i..][1..] == tags[i + 1..];
    var e, rest := Sid(u, tags[i], m[tags[i]]), SidsOfUuid(u, tags[i + 1..], m);
    assert SidsOfUuid(u, tags[i..], m)[1..] == rest;
  }

  /** The count of entries and whether any has a tag: the first loops of Encode, over the maps in any order. */
  lemma {:induction false} HasTagSum(a: seq<Sid>, b: seq<Sid>)
    ensures HasTag(a + b) == (HasTag(a) || HasTag(b))
  {
    if a == [] {
      assert a + b == b;
    } else {
      DropConcat(a, b, 1);
      HasTagSum(a[1..], b);
    }
  }

  lemma {:induction false} HasTagOfUuid(u: Uuid, ts: seq<Tag>, m: Slices)
    requires forall t :: t in ts ==> t in m
    ensures HasTag(SidsOfUuid(u, ts, m)) <==> exists t :: t in ts && t != NO_TAG
  {
    if ts != [] {
      var rest := ts[1..];
      HasTagOfUuid(u, rest, m);
      assert SidsOfUuid(u, ts, m)[1..] == SidsOfUuid(u, rest, m);
      if ts[0] == NO_TAG && exists t :: t in ts && t != NO_TAG {
        var t :| t in ts && t != NO_TAG;
        assert t in rest by { HeadTail(ts); }
      }
      if exists t :: t in rest && t != NO_TAG {
        var t :| t in rest && t != NO_TAG;
        assert t in ts;
      }
    }
  }

  lemma UuidStep(us: seq<Uuid>, s: Gtids, i: nat)
    requires (forall u :: u in us ==> u in s) && i < |us|
    ensures SidsOf(us[i..], s) == SidsOfUuid(us[i], SortKeys(s[us[i]].Keys), s[us[i]]) + SidsOf(us[i + 1..], s)
  {
    assert us[i..][1..] == us[i + 1..];
  }

  lemma TagPresent(u: Uuid, m: Slices)
    ensures HasTag(SidsOfUuid(u, SortKeys(m.Keys), m)) <==> m.Keys - {NO_TAG} != {}
    ensures |SortKeys(m.Keys)| == |m|
  {
    var ts := SortKeys(m.Keys);
    HasTagOfUuid(u, ts, m);
    if HasTag(SidsOfUuid(u, ts, m)) {
      var t :| t in ts && t != NO_TAG;
      assert t in m.Keys - {NO_TAG};
    }
    if m.Keys - {NO_TAG} != {} {
      var t :| t in m.Keys - {NO_TAG};
      assert t in ts;
    }
    CountKeys(ts, m.Keys);
  }

  lemma {:induction false} CountKeys(ks: seq<bytes>, keys: set<bytes>)
    requires Increasing(ks) && forall k :: k in ks <==> k in keys
    ensures |ks| == |keys|
    decreases |ks|
  {
    if ks == [] {
      assert keys == {};
    } else {
      HeadNotInTail(ks);
      assert forall k :: k in ks <==> k == ks[0] || k in ks[1..] by { HeadTail(ks); }
      CountKeys(ks[1..], keys - {ks[0]});
    }
  }

  /** The first loops of Encode: the number of entries and the format. */
  method CountSids(s: Gtids, us: seq<Uuid>) returns (count: nat, tagged: bool)
    requires forall u :: u in us ==> u in s
    ensures count == |SidsOf(us, s)| && tagged == HasTag(SidsOf(us, s))
  {
    count, tagged := 0, false;
    var i := 0;
    assert us[0..] == us;
    while i < |us|
      invariant i <= |us| && count + |SidsOf(us[i..], s)| == |SidsOf(us, s)|
      invariant (tagged || HasTag(SidsOf(us[i..], s))) == HasTag(SidsOf(us, s))
    {
      var m := s[us[i]];
      UuidStep(us, s, i);
      TagPresent(us[i], m);
      HasTagSum(SidsOfUuid(us[i], SortKeys(m.Keys), m), SidsOf(us[i + 1..], s));
      count := count + |m|;
      if m.Keys - {NO_TAG} != {} { tagged := true; }
      i := i + 1;
    }
  }

  /** Encode. */
  method Encode(s: Gtids) returns (b: bytes)
    requires AllInt64(Listing(s))
    ensures b == Encoded(s)
  {
    var us := CollectSorted(s.Keys);
    var count, tagged := CountSids(s, us);
    var body := EncodeUuids(s, us, tagged);
    b := EncodeSid(tagged, count) + body;
  }

  method EncodeUuids(s: Gtids, us: seq<Uuid>, tagged: bool) returns (b: bytes)
    requires (forall u :: u in us ==> u in s) && AllInt64(SidsOf(us, s))
    ensures b == SidsBytes(SidsOf(us, s), tagged)
  {
    b := [];
    var i := 0;
    assert us[0..] == us;
    while i < |us|
      invariant i <= |us| && AllInt64(SidsOf(us[i..], s))
      invariant b + SidsBytes(SidsOf(us[i..], s), tagged) == SidsBytes(SidsOf(us, s), tagged)
    {
      ghost var first, rest := SidsOfUuid(us[i], SortKeys(s[us[i]].Keys), s[us[i]]), SidsOf(us[i + 1..], s);
      UuidStep(us, s, i);
      BytesSum(first, rest, tagged);
      var part := EncodeTags(us[i], s[us[i]], tagged);
      ConcatAssoc(b, part, SidsBytes(rest, tagged));
      b := b + part;
      i := i + 1;
    }
    ConcatEmpty(b);
  }

  /** DecodeMysqlGTIDSet: one cursor through the buffer, then every slice is normalised. */
  method DecodeMysqlGTIDSet(data: bytes) returns (r: Option<Gtids>, panics: bool)
    requires |data| <= MAX_INT64
    ensures r == Decoded(data) && panics == DecodePanics(data)
  {
    var head := DecodeSid(data);
    if head.None? { return None, false; }
    var s, pos;
    ghost var tagged, n := head.value.0, head.value.1;
    s, pos, panics := DecodeSids(data, head.value.1, head.value.0, ReadSids(data[8..], n, tagged, map[]),
                                 Panics(data[8..], n, |data|, tagged));
    r := if s.Some? && pos == |data| then Some(NormalAll(s.value)) else None;
  }

  /** The loop over the entries. */
  method DecodeSids(data: bytes, n: nat, tagged: bool, ghost goal: Option<(Gtids, bytes)>, ghost panic: bool)
    returns (r: Option<Gtids>, pos: nat, panics: bool)
    requires |data| <= MAX_INT64 && SidsAt(data, 8, n, tagged, map[], goal, panic)
    ensures panics == panic && (r.None? ==> goal == None)
    ensures r.Some? ==> pos <= |data| && goal == Some((r.value, data[pos..]))
  {
    var s: Gtids, left: nat := map[], n;
    pos := 8;
    while left > 0
      invariant SidsAt(data, pos, left, tagged, s, goal, panic)
    {
      var t, next, overflow := TakeEntry(data, pos, left, tagged, s, goal, panic);
      if t.None? { return None, pos, overflow; }
      s, pos, left := t.value, next, left - 1;
    }
    SidsDone(data, pos, tagged, s, goal, panic);
    r, panics := Some(s), false;
  }

  /** One turn of that loop. */
  method TakeEntry(data: bytes, pos: nat, ghost left: nat, tagged: bool, s: Gtids, ghost goal: Option<(Gtids, bytes)>,
                   ghost panic: bool) returns (t: Option<Gtids>, next: nat, overflow: bool)
    requires left > 0 && SidsAt(data, pos, left, tagged, s, goal, panic) && |data| <= MAX_INT64
    ensures t.None? ==> goal == None && overflow == panic
    ensures t.Some? ==> SidsAt(data, next, left - 1, tagged, t.value, goal, panic)
  {
    var e;
    e, next, overflow := DecodeEntry(data, pos, tagged);
    if e.None? {
      SidRefused(data, pos, left, tagged, s, goal, panic);
      return None, next, overflow;
    }
    SidTaken(data, pos, left, tagged, s, goal, panic, e.value, next);
    t := Some(Include(s, e.value));
  }

  /** The loop has read `s` and stands at `pos` with `left` entries to go. */
  ghost predicate SidsAt(data: bytes, pos: nat, left: nat, tagged: bool, s: Gtids, goal: Option<(Gtids, bytes)>,
                         panic: bool) {
    && pos <= |data| && goal == ReadSids(data[pos..], left, tagged, s)
    && panic == Panics(data[pos..], left, |data|, tagged)
  }

  lemma SidsDone(data: bytes, pos: nat, tagged: bool, s: Gtids, goal: Option<(Gtids, bytes)>, panic: bool)
    requires SidsAt(data, pos, 0, tagged, s, goal, panic)
    ensures goal == Some((s, data[pos..])) && !panic
  {
  }

  lemma SidRefused(data: bytes, pos: nat, left: nat, tagged: bool, s: Gtids, goal: Option<(Gtids, bytes)>, panic: bool)
    requires left > 0 && SidsAt(data, pos, left, tagged, s, goal, panic) && ReadSid(data[pos..], tagged) == None
    ensures goal == None && panic == CountOverflows(data[pos..], |data|, tagged)
  {
  }

  lemma SidTaken(data: bytes, pos: nat, left: nat, tagged: bool, s: Gtids, goal: Option<(Gtids, bytes)>, panic: bool,
                 e: Sid, next: nat)
    requires left > 0 && SidsAt(data, pos, left, tagged, s, goal, panic) && |data| <= MAX_INT64
    requires next <= |data| && ReadSid(data[pos..], tagged) == Some((e, data[next..]))
    ensures SidsAt(data, next, left - 1, tagged, Include(s, e), goal, panic)
  {
    ReadDoesNotOverflow(data[pos..], |data|, tagged);
  }

  lemma ReadDoesNotOverflow(d: bytes, total: nat, tagged: bool)
    requires |d| <= total <= MAX_INT64 && ReadSid(d, tagged).Some?
    ensures !CountOverflows(d, total, tagged)
  {
  }

  /** x as a 64-bit int. */
  function Wrap(x: int): (r: int) { if x > MAX_INT64 then x - 0x1_0000_0000_0000_0000 else x }

  /** The body of the loop; `overflow` is the panic. */
  method DecodeEntry(data: bytes, start: nat, tagged: bool) returns (e: Option<Sid>, next: nat, overflow: bool)
    requires start <= |data| <= MAX_INT64
    ensures overflow == CountOverflows(data[start..], |data|, tagged)
    ensures e.Some? <==> ReadSid(data[start..], tagged).Some?
    ensures e.Some? ==> next <= |data| && ReadSid(data[start..], tagged) == Some((e.value, data[next..]))
  {
    if |data| < start + 16 { return None, start, false; }
    var uuid := data[start..start + 16];
    UuidSlices(data, start);
    var tag, pos := DecodeTag(data, start + 16, tagged);
    if tag.None? { return None, start, false; }
    e, next, overflow := DecodeSlice(data, pos, uuid, tag.value, data[start..], tagged);
  }

  /** The rest of the body, from the interval count on; `d` is the entry. */
  method DecodeSlice(data: bytes, pos: nat, uuid: Uuid, tag: Tag, ghost d: bytes, ghost tagged: bool)
    returns (e: Option<Sid>, next: nat, overflow: bool)
    requires pos <= |data| <= MAX_INT64 && |d| >= 16 && uuid == d[..16]
    requires ReadTag(d[16..], tagged) == Some((tag, data[pos..]))
    ensures overflow == CountOverflows(d, |data|, tagged) && (e.Some? <==> ReadSid(d, tagged).Some?)
    ensures e.Some? ==> next <= |data| && ReadSid(d, tagged) == Some((e.value, data[next..]))
  {
    var count;
    count, overflow := DecodeCount(data, pos);
    EntryRead(d, tagged, tag, data[pos..], |data|);
    if count.None? { return None, pos, overflow; }
    var ivs := DecodeIntervals(data, pos + 8, count.value);
    next := pos + 8 + 16 * count.value;
    AfterIntervals(data, pos, count.value);
    e := Some(Sid(uuid, tag, ivs));
  }

  lemma EntryRead(d: bytes, tagged: bool, tag: Tag, rest: bytes, total: nat)
    requires |d| >= 16 && ReadTag(d[16..], tagged) == Some((tag, rest))
    ensures CountOverflows(d, total, tagged) <==>
      |rest| >= 8 && 0 < FromLE(rest[..8]) <= MAX_INT64 / 16 && total - |rest| + 8 + 16 * FromLE(rest[..8]) > MAX_INT64
    ensures ReadSid(d, tagged) ==
      if |rest| >= 8 && 0 < FromLE(rest[..8]) <= MAX_INT64 / 16 && |rest| >= 8 + 16 * FromLE(rest[..8]) then
        Some((Sid(d[..16], tag, ReadIntervals(rest[8..], FromLE(rest[..8]))), rest[8 + 16 * FromLE(rest[..8])..]))
      else None
  {
  }

  lemma UuidSlices(data: bytes, start: nat)
    requires start + 16 <= |data|
    ensures data[start..][..16] == data[start..start + 16] && data[start..][16..] == data[start + 16..]
  {
  }

  lemma AfterIntervals(data: bytes, pos: nat, k: nat)
    requires pos + 8 + 16 * k <= |data|
    ensures data[pos..][8..] == data[pos + 8..] && data[pos..][8 + 16 * k..] == data[pos + 8 + 16 * k..]
  {
  }

  /** The tag of an entry, if the format has tags. */
  method DecodeTag(data: bytes, pos: nat, tagged: bool) returns (tag: Option<Tag>, next: nat)
    requires pos <= |data|
    ensures tag.Some? <==> ReadTag(data[pos..], tagged).Some?
    ensures tag.Some? ==> next <= |data| && ReadTag(data[pos..], tagged) == Some((tag.value, data[next..]))
  {
    if !tagged { return Some(NO_TAG), pos; }
    if pos >= |data| { return None, pos; }
    var tagLen := data[pos] / 2;
    if pos + 1 + tagLen > |data| { return None, pos; }
    TagSlices(data, pos, tagLen);
    tag, next := Some(NewTag(data[pos + 1..pos + 1 + tagLen])), pos + 1 + tagLen;
  }

  /** The interval count and its tests; the sum in the last one is that of 64-bit ints. */
  method DecodeCount(data: bytes, at: nat) returns (count: Option<nat>, overflow: bool)
    requires at <= |data| <= MAX_INT64
    ensures var rest := data[at..]; overflow <==>
      |rest| >= 8 && 0 < FromLE(rest[..8]) <= MAX_INT64 / 16 && at + 8 + 16 * FromLE(rest[..8]) > MAX_INT64
    ensures var rest := data[at..]; count.Some? <==>
      |rest| >= 8 && 0 < FromLE(rest[..8]) <= MAX_INT64 / 16 && |rest| >= 8 + 16 * FromLE(rest[..8])
    ensures count.Some? ==> count.value == FromLE(data[at..][..8])
  {
    if |data| < at + 8 { return None, false; }
    assert data[at..][..8] == data[at..at + 8];
    var n, pos := FromLE(data[at..at + 8]), at + 8;
    if n == 0 || n > MAX_INT64 / 16 { return None, false; }
    var end := Wrap(pos + n * 16);
    if |data| < end { return None, false; }
    if pos + n * 16 != end { return None, true; }
    count, overflow := Some(n), false;
  }

  lemma TagSlices(data: bytes, pos: nat, n: nat)
    requires pos + 1 + n <= |data|
    ensures var d := data[pos..];
      d[0] == data[pos] && d[1..1 + n] == data[pos + 1..pos + 1 + n] && d[1 + n..] == data[pos + 1 + n..]
  {
  }

  lemma IntervalSlices(data: bytes, pos: nat)
    requires pos + 16 <= |data|
    ensures var d := data[pos..];
      d[..8] == data[pos..pos + 8] && d[8..16] == data[pos + 8..pos + 16] && d[16..] == data[pos + 16..]
  {
  }

  /** The loop over the intervals of an entry. */
  method DecodeIntervals(data: bytes, start: nat, count: nat) returns (ivs: seq<Interval>)
    requires start + 16 * count <= |data|
    ensures ivs == ReadIntervals(data[start..], count)
  {
    ivs := [];
    var pos, i := start, 0;
    ghost var goal := ReadIntervals(data[start..], count);
    assert [] + goal == goal;
    while i < count
      invariant i <= count && pos == start + 16 * i && goal == ivs + ReadIntervals(data[pos..], count - i)
    {
      IntervalSlices(data, pos);
      var iv := Interval(ToSigned(8, FromLE(data[pos..pos + 8])), ToSigned(8, FromLE(data[pos + 8..pos + 16])));
      ConcatAssoc(ivs, [iv], ReadIntervals(data[pos + 16..], count - i - 1));
      ivs, pos, i := ivs + [iv], pos + 16, i + 1;
    }
    ConcatEmpty(ivs);
  }
}
