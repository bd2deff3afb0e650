/**
 The binary form of GTID sets is exact: DecodeMysqlGTIDSet in
 mysql/mysql_gtid.go accepts nothing that is longer or shorter than what it
 reads, so no form is the beginning of another.
 */
module GtidExact {
  import opened Bytes
  import opened GtidBinary
  import opened GtidSet
  import opened Lists

  lemma TagLocal(d: bytes, tagged: bool, x: bytes)
    requires ReadTag(d, tagged).Some?
    ensures var (t, rest) := ReadTag(d, tagged).value; ReadTag(d + x, tagged) == Some((t, rest + x))
  {
    if tagged {
      var k := d[0] / 2;
      SliceOfConcat(d, x, 1, 1 + k);
      DropConcat(d, x, 1 + k);
    }
  }

  lemma {:induction false} IntervalsLocal(d: bytes, k: nat, x: bytes)
    requires 16 * k <= |d|
    ensures ReadIntervals(d + x, k) == ReadIntervals(d, k)
  {
    if k > 0 {
      DropConcat(d, x, 16);
      IntervalsLocal(d[16..], k - 1, x);
      assert (d + x)[..8] == d[..8] && (d + x)[8..16] == d[8..16];
    }
  }

  lemma SidLocal(d: bytes, tagged: bool, x: bytes)
    requires ReadSid(d, tagged).Some?
    ensures var (e, rest) := ReadSid(d, tagged).value; ReadSid(d + x, tagged) == Some((e, rest + x))
  {
    var (tag, rest) := ReadTag(d[16..], tagged).value;
    DropConcat(d, x, 16);
    TagLocal(d[16..], tagged, x);
    assert (d + x)[..16] == d[..16];
    CountLocal(rest, x);
  }

  lemma CountLocal(rest: bytes, x: bytes)
    requires |rest| >= 8 && |rest| >= 8 + 16 * FromLE(rest[..8])
    ensures (rest + x)[..8] == rest[..8]
    ensures var n := FromLE(rest[..8]);
      && ReadIntervals((rest + x)[8..], n) == ReadIntervals(rest[8..], n)
      && (rest + x)[8 + 16 * n..] == rest[8 + 16 * n..] + x
  {
    var n := FromLE(rest[..8]);
    DropConcat(rest, x, 8);
    IntervalsLocal(rest[8..], n, x);
    DropConcat(rest, x, 8 + 16 * n);
  }

  lemma {:induction false} SidsLocal(d: bytes, n: nat, tagged: bool, s: Gtids, x: bytes)
    requires ReadSids(d, n, tagged, s).Some?
    ensures var (r, rest) := ReadSids(d, n, tagged, s).value; ReadSids(d + x, n, tagged, s) == Some((r, rest + x))
    decreases n
  {
    if n > 0 {
      var (e, rest) := ReadSid(d, tagged).value;
      SidLocal(d, tagged, x);
      SidsLocal(rest, n - 1, tagged, Include(s, e), x);
    }
  }

  /** Bytes after a form that is decoded are an error. */
  lemma ExtendedIsRefused(data: bytes, x: bytes)
    requires Decoded(data).Some? && x != []
    ensures Decoded(data + x) == None
  {
    var (tagged, n) := DecodeSid(data).value;
    DropConcat(data, x, 8);
    assert (data + x)[1..7] == data[1..7] && (data + x)[..8] == data[..8];
    SidsLocal(data[8..], n, tagged, map[], x);
  }

  /** And so is a form that is cut short. */
  lemma CutIsRefused(data: bytes, k: nat)
    requires Decoded(data).Some? && k < |data|
    ensures Decoded(data[..k]) == None
  {
    assert data[..k] + data[k..] == data;
    if Decoded(data[..k]).Some? { ExtendedIsRefused(data[..k], data[k..]); }
  }

  /** Every entry has a whole uuid and at least one interval. */
  lemma EntriesAreWhole(d: bytes, tagged: bool)
    requires ReadSid(d, tagged).Some?
    ensures var (e, rest) := ReadSid(d, tagged).value; |e.uuid| == 16 && e.ivs != []
  {
  }

  /** A tag of at most 32 bytes is read back from what is written of it, and nothing is written of a longer one. */
  lemma TagForm(t: Tag, rest: bytes)
    ensures |t| > 32 ==> TagBytes(t) == []
    ensures |t| <= 32 ==> ReadTag(TagBytes(t) + rest, true) == Some((NewTag(t), rest))
  {
    if |t| <= 32 {
      var d := TagBytes(t) + rest;
      assert d[0] / 2 == |t| && d[1..1 + |t|] == t && d[1 + |t|..] == rest;
    }
  }
}
