/**
 The text form of GTID sets (String and ParseMysqlGTIDSet in
 mysql/mysql_gtid.go): servers separated by commas, and after each server its
 tags and intervals separated by colons. White space and letter case are
 those of ASCII.
 */
module GtidText {
  import opened Bytes
  import opened Digits
  import opened GtidBinary
  import opened GtidSet
  import opened Intervals
  import opened Lists

  // ----- uuids -----

  function HexChar(n: nat): (c: char)
    requires n < 16
  {
    if n < 10 then (n + 48) as char else (n + 87) as char
  }

  function HexValue(c: char): (r: Option<nat>)
    ensures r.Some? ==> r.value < 16
  {
    if '0' <= c <= '9' then Some(c as int - 48)
    else if 'a' <= c <= 'f' then Some(c as int - 87)
    else if 'A' <= c <= 'F' then Some(c as int - 55)
    else None
  }

  /** Where byte k of a uuid is written: after 8, 12, 16 and 20 digits there is a dash. */
  function HexPos(k: nat): (p: nat)
    requires k < 16
    ensures p <= 34
  {
    2 * k + if k < 4 then 0 else if k < 6 then 1 else if k < 8 then 2 else if k < 10 then 3 else 4
  }

  predicate IsDash(i: nat) { i == 8 || i == 13 || i == 18 || i == 23 }

  /** The hexadecimal digit at position i, counting from zero without the dashes. */
  function HexIndex(i: nat): (d: nat)
    requires i < 36 && !IsDash(i)
    ensures d < 32
  {
    if i < 8 then i else if i < 13 then i - 1 else if i < 18 then i - 2 else if i < 23 then i - 3 else i - 4
  }

  function UuidChar(u: Uuid, i: nat): (c: char)
    requires |u| == 16 && i < 36
  {
    if IsDash(i) then '-' else
      var d := HexIndex(i);
      HexChar(if d % 2 == 0 then u[d / 2] / 16 else u[d / 2] % 16)
  }

  /** uuid.String */
  function UuidText(u: Uuid): (s: string)
    requires |u| == 16
    ensures |s| == 36
  {
    seq(36, i requires 0 <= i < 36 => UuidChar(u, i))
  }

  predicate HexAt(s: string, p: nat) {
    p + 1 < |s| && HexValue(s[p]).Some? && HexValue(s[p + 1]).Some?
  }

  function ByteAt(s: string, p: nat): (b: byte)
    requires HexAt(s, p)
  {
    16 * HexValue(s[p]).value + HexValue(s[p + 1]).value
  }

  /** The dashed form, on the first 36 characters. */
  function ParseDashed(s: string): (r: Option<Uuid>)
    requires |s| >= 36
  {
    if s[8] == '-' && s[13] == '-' && s[18] == '-' && s[23] == '-' && (forall k :: 0 <= k < 16 ==> HexAt(s, HexPos(k)))
    then Some(seq(16, k requires 0 <= k < 16 && HexAt(s, HexPos(k)) => ByteAt(s, HexPos(k))))
    else None
  }

  /** uuid.Parse; the form with a urn prefix has colons and cannot occur between colons. */
  function ParseUuid(s: string): (r: Option<Uuid>) {
    if |s| == 36 then ParseDashed(s)
    else if |s| == 38 then ParseDashed(s[1..])
    else if |s| == 32 && (forall k :: 0 <= k < 16 ==> HexAt(s, 2 * k))
    then Some(seq(16, k requires 0 <= k < 16 && HexAt(s, 2 * k) => ByteAt(s, 2 * k)))
    else None
  }

  lemma HexRoundTrip(n: nat)
    requires n < 16
    ensures HexValue(HexChar(n)) == Some(n)
  {
  }

  lemma UuidByte(u: Uuid, k: nat)
    requires |u| == 16 && k < 16
    ensures HexAt(UuidText(u), HexPos(k)) && ByteAt(UuidText(u), HexPos(k)) == u[k]
  {
    var p := HexPos(k);
    assert !IsDash(p) && !IsDash(p + 1) && HexIndex(p) == 2 * k && HexIndex(p + 1) == 2 * k + 1;
    HexRoundTrip(u[k] / 16);
    HexRoundTrip(u[k] % 16);
  }

  lemma UuidRoundTrip(u: Uuid)
    requires |u| == 16
    ensures ParseUuid(UuidText(u)) == Some(u)
  {
    var s := UuidText(u);
    forall k | 0 <= k < 16 ensures HexAt(s, HexPos(k)) && ByteAt(s, HexPos(k)) == u[k] { UuidByte(u, k); }
    assert ParseDashed(s).value == u;
  }

  // ----- tags and tokens -----

  function Chars(b: bytes): (s: string)
    ensures |s| == |b|
  {
    seq(|b|, i requires 0 <= i < |b| => b[i] as char)
  }

  predicate IsBlank(c: char) { c == ' ' || '\t' <= c <= '\r' }

  /** strings.TrimSpace */
  function TrimText(s: string): (r: string)
    decreases |s|
  {
    if s == "" then ""
    else if IsBlank(s[0]) then TrimText(s[1..])
    else if IsBlank(s[|s| - 1]) then TrimText(s[..|s| - 1])
    else s
  }

  predicate IsLetter(c: char) { 'a' <= c <= 'z' || 'A' <= c <= 'Z' || c == '_' }

  /** \s of a regular expression, which has no vertical tab. */
  predicate IsRegexpBlank(c: char) { IsBlank(c) && c != 11 as char }

  function TrimTag(s: string): (r: string)
    decreases |s|
  {
    if s == "" then ""
    else if IsRegexpBlank(s[0]) then TrimTag(s[1..])
    else if IsRegexpBlank(s[|s| - 1]) then TrimTag(s[..|s| - 1])
    else s
  }

  /** tagRegexp: blanks around a letter or underscore and up to 31 letters, digits or underscores. */
  predicate IsTagText(s: string) {
    var c := TrimTag(s);
    1 <= |c| <= 32 && IsLetter(c[0]) && forall i :: 0 <= i < |c| ==> IsLetter(c[i]) || IsDigit(c[i])
  }

  /** NewTag on a text that is a tag. */
  function TagOf(s: string): (t: Tag)
    requires IsTagText(s)
  {
    var c := TrimTag(s);
    seq(|c|, i requires 0 <= i < |c| => if 'A' <= c[i] <= 'Z' then c[i] as int + 32 else c[i] as int)
  }

  lemma {:induction false} TrimKeepsFront(s: string)
    requires s != "" && !IsRegexpBlank(s[0])
    ensures TrimTag(s) != "" && TrimTag(s)[0] == s[0]
    decreases |s|
  {
    if IsRegexpBlank(s[|s| - 1]) { TrimKeepsFront(s[..|s| - 1]); }
  }

  /** TrimSpace in NewTag takes the same blanks off a tag as the regular expression does. */
  lemma {:induction false} TrimsAgree(s: string)
    requires IsTagText(s)
    ensures TrimText(s) == TrimTag(s)
    decreases |s|
  {
    if IsRegexpBlank(s[0]) {
      TrimsAgree(s[1..]);
    } else {
      TrimKeepsFront(s);
    }
    if !IsRegexpBlank(s[0]) && IsRegexpBlank(s[|s| - 1]) {
      TrimsAgree(s[..|s| - 1]);
    }
  }

  /** The loop over the tokens after the uuid; an empty slice is one that no interval has joined yet. */
  function ParseTokens(m: Slices, tag: Tag, toks: seq<string>): (r: Option<Slices>)
    decreases |toks|
  {
    if toks == [] then Some(m)
    else if IsTagText(toks[0]) then
      var t := TagOf(toks[0]);
      ParseTokens(if t in m then m else m[t := []], t, toks[1..])
    else
      match ParseInterval(toks[0])
      case None => None
      case Some(iv) => ParseTokens(m[tag := (if tag in m then m[tag] else []) + [iv]], tag, toks[1..])
  }

  /** What follows the loop: a tag without interval is an error, every slice is normalised. */
  function Settle(m: Slices): (r: Option<Slices>) {
    if exists t :: t in m && m[t] == [] then None else Some(NormalSlices(m))
  }

  function ParsePart(s: Gtids, part: string): (r: Option<Gtids>) {
    var sep := Split(TrimText(part), ':');
    if |sep| < 2 then None
    else match ParseUuid(sep[0])
      case None => None
      case Some(u) =>
        match ParseTokens(if u in s then s[u] else map[], NO_TAG, sep[1..])
        case None => None
        case Some(m) => (match Settle(m) case None => None case Some(n) => Some(s[u := n]))
  }

  function ParseParts(s: Gtids, parts: seq<string>): (r: Option<Gtids>)
    decreases |parts|
  {
    if parts == [] then Some(s)
    else match ParsePart(s, parts[0])
      case None => None
      case Some(s') => ParseParts(s', parts[1..])
  }

  /** ParseMysqlGTIDSet; None is an error. */
  function ParseSet(str: string): (r: Option<Gtids>) {
    if str == "" then Some(map[]) else ParseParts(map[], Split(str, ','))
  }

  // ----- printing -----

  function IntervalTokens(ivs: seq<Interval>): (toks: seq<string>) {
    if ivs == [] then [] else [Print(ivs[0])] + IntervalTokens(ivs[1..])
  }

  /** Intervals of numbers from zero up, within 64 bits. */
  predicate Printable(ivs: seq<Interval>) {
    ivs == [] || (0 <= ivs[0].start < ivs[0].stop <= MAX_INT64 && Printable(ivs[1..]))
  }

  function TagTokens(t: Tag, ivs: seq<Interval>): (toks: seq<string>) {
    (if t == NO_TAG then [] else [Chars(t)]) + IntervalTokens(ivs)
  }

  predicate AllPrintable(ts: seq<Tag>, m: Slices) {
    ts == [] || (ts[0] in m && Printable(m[ts[0]]) && AllPrintable(ts[1..], m))
  }

  /** A tag that is not in the map reads as a nil slice. */
  function TokensOf(ts: seq<Tag>, m: Slices): (toks: seq<string>) {
    if ts == [] then [] else TagTokens(ts[0], SliceOf(m, ts[0])) + TokensOf(ts[1..], m)
  }

  /** Every token with its separator in front. */
  function Joined(c: char, toks: seq<string>): (s: string) {
    if toks == [] then "" else [c] + (toks[0] + Joined(c, toks[1..]))
  }

  /** One server. */
  ghost function PartText(u: Uuid, m: Slices): (s: string)
    requires |u| == 16
  {
    UuidText(u) + Joined(':', TokensOf(SortKeys(m.Keys), m))
  }

  /** Servers of the set; uuids have 16 bytes. */
  ghost predicate ServersOf(us: seq<Uuid>, s: Gtids) {
    us == [] || (us[0] in s && |us[0]| == 16 && ServersOf(us[1..], s))
  }

  ghost function PartTexts(us: seq<Uuid>, s: Gtids): (r: seq<string>)
    requires ServersOf(us, s)
    ensures |r| == |us|
  {
    if us == [] then [] else [PartText(us[0], s[us[0]])] + PartTexts(us[1..], s)
  }

  /** String */
  ghost function Printed(s: Gtids): (r: string)
    requires ServersOf(SortKeys(s.Keys), s)
  {
    Line(PartTexts(SortKeys(s.Keys), s))
  }

  function Line(ps: seq<string>): (r: string) { if ps == [] then "" else ps[0] + Joined(',', ps[1..]) }

  // ----- plain texts -----

  predicate PlainChar(c: char) { c != ',' && c != ':' && !IsBlank(c) }

  predicate Plain(s: string) { forall i :: 0 <= i < |s| ==> PlainChar(s[i]) }

  predicate AllPlain(toks: seq<string>) { toks == [] || (Plain(toks[0]) && AllPlain(toks[1..])) }

  predicate NoneOf(c: char, toks: seq<string>) { toks == [] || (c !in toks[0] && NoneOf(c, toks[1..])) }

  lemma {:induction false} SplitJoined(a: string, c: char, toks: seq<string>)
    requires c !in a && NoneOf(c, toks)
    ensures Split(a + Joined(c, toks), c) == [a] + toks
    decreases |toks|
  {
    if toks == [] {
      assert a + "" == a;
      SplitNone(a, c);
    } else {
      var rest := toks[0] + Joined(c, toks[1..]);
      assert a + ([c] + rest) == a + [c] + rest;
      SplitFirst(a, c, rest);
      SplitJoined(toks[0], c, toks[1..]);
      HeadTail(toks);
    }
  }

  lemma {:induction false} PlainHasNone(c: char, toks: seq<string>)
    requires AllPlain(toks) && (c == ':' || c == ',')
    ensures NoneOf(c, toks)
  {
    if toks != [] { PlainHasNone(c, toks[1..]); }
  }

  lemma {:induction false} AllPlainSum(a: seq<string>, b: seq<string>)
    requires AllPlain(a) && AllPlain(b)
    ensures AllPlain(a + b)
  {
    if a == [] {
      assert a + b == b;
    } else {
      DropConcat(a, b, 1);
      AllPlainSum(a[1..], b);
    }
  }

  lemma PlainSum(a: string, b: string)
    requires Plain(a) && Plain(b)
    ensures Plain(a + b)
  {
  }

  lemma NumberIsPlain(n: nat)
    ensures Plain(FormatNat(n))
  {
    var s := FormatNat(n);
    forall i | 0 <= i < |s| ensures PlainChar(s[i]) { assert IsDigit(s[i]); }
  }

  lemma PrintIsPlain(iv: Interval)
    requires 0 <= iv.start < iv.stop <= MAX_INT64
    ensures Plain(Print(iv)) && Print(iv) != "" && IsDigit(Print(iv)[0])
  {
    PrintOf(iv);
    NumberIsPlain(iv.start);
    NumberIsPlain(iv.stop - 1);
    RangeIsPlain(FormatNat(iv.start), FormatNat(iv.stop - 1));
  }

  lemma RangeIsPlain(a: string, b: string)
    requires Plain(a) && Plain(b) && a != "" && AllDigits(a)
    ensures Plain(a + "-" + b) && IsDigit(a[0]) && (a + "-" + b)[0] == a[0]
  {
    PlainSum(a, "-");
    PlainSum(a + "-", b);
  }

  lemma UuidIsPlain(u: Uuid)
    requires |u| == 16
    ensures Plain(UuidText(u))
  {
  }

  lemma TagIsPlain(t: Tag)
    requires GoodTag(t)
    ensures Plain(Chars(t))
  {
  }

  lemma TrimKeeps(s: string)
    requires Plain(s)
    ensures TrimText(s) == s
  {
  }

  lemma {:induction false} IntervalTokensPlain(ivs: seq<Interval>)
    requires Printable(ivs)
    ensures AllPlain(IntervalTokens(ivs))
  {
    if ivs != [] {
      PrintIsPlain(ivs[0]);
      IntervalTokensPlain(ivs[1..]);
      assert IntervalTokens(ivs)[1..] == IntervalTokens(ivs[1..]);
    }
  }

  /** No tag, or a tag that starts with a letter or an underscore. */
  predicate TextTag(t: Tag) { t == NO_TAG || (GoodTag(t) && !(48 <= t[0] <= 57)) }

  predicate TextTags(ts: seq<Tag>) { ts == [] || (TextTag(ts[0]) && TextTags(ts[1..])) }

  lemma {:induction false} TokensPlain(ts: seq<Tag>, m: Slices)
    requires AllPrintable(ts, m) && TextTags(ts)
    ensures AllPlain(TokensOf(ts, m))
  {
    if ts != [] {
      IntervalTokensPlain(m[ts[0]]);
      if ts[0] != NO_TAG {
        TagIsPlain(ts[0]);
        assert AllPlain([Chars(ts[0])]);
        AllPlainSum([Chars(ts[0])], IntervalTokens(m[ts[0]]));
      } else {
        assert [] + IntervalTokens(m[ts[0]]) == IntervalTokens(m[ts[0]]);
      }
      TokensPlain(ts[1..], m);
      AllPlainSum(TagTokens(ts[0], m[ts[0]]), TokensOf(ts[1..], m));
    }
  }

  /** No blanks and no commas, though there are colons. */
  lemma {:induction false} JoinedClean(toks: seq<string>)
    requires AllPlain(toks)
    ensures forall i :: 0 <= i < |Joined(':', toks)| ==> Joined(':', toks)[i] != ',' && !IsBlank(Joined(':', toks)[i])
  {
    if toks != [] {
      JoinedClean(toks[1..]);
      var rest := Joined(':', toks[1..]);
      CleanSum(toks[0], rest);
      CleanSum([':'], toks[0] + rest);
    }
  }

  predicate Clean(s: string) { forall i :: 0 <= i < |s| ==> s[i] != ',' && !IsBlank(s[i]) }

  lemma CleanSum(a: string, b: string)
    requires Clean(a) && Clean(b)
    ensures Clean(a + b)
  {
  }

  lemma TrimClean(s: string)
    requires Clean(s)
    ensures TrimText(s) == s
  {
  }

  // ----- reading the tokens back -----

  lemma PrintIsNoTag(iv: Interval)
    requires 0 <= iv.start < iv.stop <= MAX_INT64
    ensures !IsTagText(Print(iv))
  {
    PrintIsPlain(iv);
    TrimKeeps(Print(iv));
  }

  lemma TagTextRoundTrip(t: Tag)
    requires TextTag(t) && t != NO_TAG
    ensures IsTagText(Chars(t)) && TagOf(Chars(t)) == t
  {
    var c := Chars(t);
    TagIsPlain(t);
    TrimKeeps(c);
    forall i | 0 <= i < |c| ensures IsLetter(c[i]) || IsDigit(c[i]) { assert TagByte(t[i]); }
    assert TagByte(t[0]);
    assert TagOf(c) == t;
  }

  function SliceOf(m: Slices, t: Tag): (ivs: seq<Interval>) { if t in m then m[t] else [] }

  lemma IntervalToken(m: Slices, tag: Tag, iv: Interval, rest: seq<string>)
    requires 0 <= iv.start < iv.stop <= MAX_INT64
    ensures ParseTokens(m, tag, [Print(iv)] + rest) == ParseTokens(m[tag := SliceOf(m, tag) + [iv]], tag, rest)
  {
    PrintIsNoTag(iv);
    PrintRoundTrip(iv);
    assert ([Print(iv)] + rest)[1..] == rest;
  }

  lemma {:induction false} IntervalTokensParse(m: Slices, tag: Tag, ivs: seq<Interval>, rest: seq<string>)
    requires Printable(ivs) && (ivs != [] || tag in m)
    ensures ParseTokens(m, tag, IntervalTokens(ivs) + rest) == ParseTokens(m[tag := SliceOf(m, tag) + ivs], tag, rest)
    decreases |ivs|
  {
    if ivs == [] {
      assert [] + rest == rest && m[tag] + [] == m[tag] && m[tag := m[tag]] == m;
    } else {
      var iv, tail := ivs[0], IntervalTokens(ivs[1..]);
      var next := m[tag := SliceOf(m, tag) + [iv]];
      ConcatAssoc([Print(iv)], tail, rest);
      IntervalToken(m, tag, iv, tail + rest);
      IntervalTokensParse(next, tag, ivs[1..], rest);
      HeadTail(ivs);
      ConcatAssoc(SliceOf(m, tag), [iv], ivs[1..]);
      assert next[tag := SliceOf(next, tag) + ivs[1..]] == m[tag := SliceOf(m, tag) + ivs];
    }
  }

  lemma TagToken(m: Slices, tag: Tag, t: Tag, rest: seq<string>)
    requires TextTag(t) && t != NO_TAG && t !in m
    ensures ParseTokens(m, tag, [Chars(t)] + rest) == ParseTokens(m[t := []], t, rest)
  {
    TagTextRoundTrip(t);
    assert ([Chars(t)] + rest)[1..] == rest;
  }

  lemma TagTokensParse(m: Slices, tag: Tag, t: Tag, ivs: seq<Interval>, rest: seq<string>)
    requires TextTag(t) && t !in m && Printable(ivs) && ivs != [] && (t == NO_TAG ==> tag == NO_TAG)
    ensures ParseTokens(m, tag, TagTokens(t, ivs) + rest) == ParseTokens(m[t := ivs], t, rest)
  {
    var toks := IntervalTokens(ivs);
    assert [] + ivs == ivs;
    if t == NO_TAG {
      assert [] + toks == toks;
      IntervalTokensParse(m, t, ivs, rest);
    } else {
      ConcatAssoc([Chars(t)], toks, rest);
      TagToken(m, tag, t, toks + rest);
      IntervalTokensParse(m[t := []], t, ivs, rest);
      assert m[t := []][t := ivs] == m[t := ivs];
    }
  }

  function AddTags(acc: Slices, ts: seq<Tag>, m: Slices): (r: Slices)
    requires forall t :: t in ts ==> t in m
    decreases |ts|
  {
    if ts == [] then acc else AddTags(acc[ts[0] := m[ts[0]]], ts[1..], m)
  }

  lemma NoTagComesFirst(ts: seq<Tag>)
    requires Increasing(ts) && ts != [] && ts[0] != NO_TAG
    ensures NO_TAG !in ts
  {
    if NO_TAG in ts { FirstKeyIsLeast(ts, NO_TAG); }
  }

  lemma {:induction false} TokensParse(acc: Slices, tag: Tag, ts: seq<Tag>, m: Slices)
    requires (forall t :: t in ts ==> t in m && t !in acc && m[t] != []) && AllPrintable(ts, m) && TextTags(ts)
      && Increasing(ts)
    requires NO_TAG in ts ==> tag == NO_TAG
    ensures ParseTokens(acc, tag, TokensOf(ts, m)) == Some(AddTags(acc, ts, m))
    decreases |ts|
  {
    if ts != [] {
      HeadNotInTail(ts);
      HeadTail(ts);
      if ts[0] != NO_TAG { NoTagComesFirst(ts); }
      TagTokensParse(acc, tag, ts[0], m[ts[0]], TokensOf(ts[1..], m));
      TokensParse(acc[ts[0] := m[ts[0]]], ts[0], ts[1..], m);
    }
  }

  lemma {:induction false} AddTagsHas(acc: Slices, ts: seq<Tag>, m: Slices, t: Tag)
    requires (forall k :: k in ts ==> k in m) && Increasing(ts)
    ensures t in AddTags(acc, ts, m) <==> t in acc || t in ts
    ensures t in ts ==> AddTags(acc, ts, m)[t] == m[t]
    ensures t in acc && t !in ts ==> AddTags(acc, ts, m)[t] == acc[t]
    decreases |ts|
  {
    if ts != [] {
      HeadNotInTail(ts);
      HeadTail(ts);
      AddTagsHas(acc[ts[0] := m[ts[0]]], ts[1..], m, t);
    }
  }

  lemma AllTagsAdded(m: Slices)
    ensures AddTags(map[], SortKeys(m.Keys), m) == m
  {
    var r := AddTags(map[], SortKeys(m.Keys), m);
    forall t ensures (t in r <==> t in m) && (t in m ==> r[t] == m[t]) { AddTagsHas(map[], SortKeys(m.Keys), m, t); }
  }

  lemma Settled(m: Slices)
    requires SlicesFormed(m)
    ensures Settle(m) == Some(m)
  {
    forall t | t in m ensures Normal(m[t]) == m[t] { NormalTwice(m[t]); }
    assert NormalSlices(m) == m;
  }

  ghost predicate TextSlices(m: Slices) {
    SlicesFormed(m) && AllPrintable(SortKeys(m.Keys), m) && TextTags(SortKeys(m.Keys))
  }

  lemma PartRoundTrip(s: Gtids, u: Uuid, m: Slices)
    requires |u| == 16 && TextSlices(m) && u !in s
    ensures ParsePart(s, PartText(u, m)) == Some(s[u := m]) && ',' !in PartText(u, m) && PartText(u, m) != ""
  {
    var ts := SortKeys(m.Keys);
    var toks := TokensOf(ts, m);
    var part := PartText(u, m);
    UuidIsPlain(u);
    TokensPlain(ts, m);
    JoinedClean(toks);
    CleanSum(UuidText(u), Joined(':', toks));
    TrimClean(part);
    PlainHasNone(':', toks);
    SplitJoined(UuidText(u), ':', toks);
    UuidRoundTrip(u);
    TokensParse(map[], NO_TAG, ts, m);
    AllTagsAdded(m);
    Settled(m);
    SomeToken(m);
    PartParsed(s, part, [UuidText(u)] + toks, u, m);
  }

  lemma SomeToken(m: Slices)
    requires TextSlices(m)
    ensures TokensOf(SortKeys(m.Keys), m) != []
  {
    var ts := SortKeys(m.Keys);
    var t :| t in m;
    assert t in ts;
    assert m[ts[0]] != [];
  }

  lemma PartParsed(s: Gtids, part: string, sep: seq<string>, u: Uuid, m: Slices)
    requires |sep| >= 2 && Split(TrimText(part), ':') == sep && ParseUuid(sep[0]) == Some(u) && u !in s
    requires ParseTokens(map[], NO_TAG, sep[1..]) == Some(m) && Settle(m) == Some(m)
    ensures ParsePart(s, part) == Some(s[u := m])
  {
  }

  ghost predicate TextParts(us: seq<Uuid>, s: Gtids) {
    us == [] || (us[0] in s && |us[0]| == 16 && TextSlices(s[us[0]]) && TextParts(us[1..], s))
  }

  function AddParts(acc: Gtids, us: seq<Uuid>, s: Gtids): (r: Gtids)
    requires forall u :: u in us ==> u in s
    decreases |us|
  {
    if us == [] then acc else AddParts(acc[us[0] := s[us[0]]], us[1..], s)
  }

  lemma {:induction false} PartsParse(acc: Gtids, us: seq<Uuid>, s: Gtids, ps: seq<string>)
    requires (forall u :: u in us ==> u in s && u !in acc) && Increasing(us) && TextParts(us, s)
    requires ServersOf(us, s) && ps == PartTexts(us, s)
    ensures ParseParts(acc, ps) == Some(AddParts(acc, us, s)) && NoneOf(',', ps)
    decreases |us|
  {
    if us != [] {
      HeadNotInTail(us);
      HeadTail(us);
      PartRoundTrip(acc, us[0], s[us[0]]);
      PartsParse(acc[us[0] := s[us[0]]], us[1..], s, PartTexts(us[1..], s));
      assert ps[1..] == PartTexts(us[1..], s);
    }
  }

  lemma {:induction false} AddPartsHas(acc: Gtids, us: seq<Uuid>, s: Gtids, u: Uuid)
    requires (forall k :: k in us ==> k in s) && Increasing(us)
    ensures u in AddParts(acc, us, s) <==> u in acc || u in us
    ensures u in us ==> AddParts(acc, us, s)[u] == s[u]
    ensures u in acc && u !in us ==> AddParts(acc, us, s)[u] == acc[u]
    decreases |us|
  {
    if us != [] {
      HeadNotInTail(us);
      HeadTail(us);
      AddPartsHas(acc[us[0] := s[us[0]]], us[1..], s, u);
    }
  }

  lemma AllPartsAdded(s: Gtids)
    ensures AddParts(map[], SortKeys(s.Keys), s) == s
  {
    var r := AddParts(map[], SortKeys(s.Keys), s);
    forall u ensures (u in r <==> u in s) && (u in s ==> r[u] == s[u]) { AddPartsHas(map[], SortKeys(s.Keys), s, u); }
  }

  lemma ParsePrintedText(s: Gtids)
    requires TextParts(SortKeys(s.Keys), s) && ServersOf(SortKeys(s.Keys), s)
    ensures ParseSet(Printed(s)) == Some(s)
  {
    var us := SortKeys(s.Keys);
    var ps := PartTexts(us, s);
    PartsParse(map[], us, s, ps);
    AllPartsAdded(s);
    if us != [] {
      PartRoundTrip(map[], us[0], s[us[0]]);
      SplitJoined(ps[0], ',', ps[1..]);
      HeadTail(ps);
      assert Printed(s) != "";
    }
  }

  // ----- what a text can say -----

  predicate InText(iv: Interval) { 0 <= iv.start < iv.stop <= MAX_INT64 }

  lemma {:induction false} PrintableAt(ivs: seq<Interval>)
    ensures Printable(ivs) <==> forall i :: 0 <= i < |ivs| ==> InText(ivs[i])
  {
    if ivs != [] {
      PrintableAt(ivs[1..]);
      HeadTail(ivs);
      assert InText(ivs[0]) && Printable(ivs[1..]) ==> forall i :: 0 < i < |ivs| ==> ivs[i] == ivs[1..][i - 1];
      assert forall i :: 0 <= i < |ivs[1..]| ==> ivs[1..][i] == ivs[i + 1];
    }
  }

  /** Tags and intervals as the token loop gathers them. */
  ghost predicate Gathered(m: Slices) { forall t :: t in m ==> TextTag(t) && Printable(m[t]) }

  /** And as they are once settled. */
  ghost predicate Sound(m: Slices) {
    m != map[] && Gathered(m) && forall t :: t in m ==> m[t] != [] && IsNormal(m[t])
  }

  lemma TagOfText(s: string)
    requires IsTagText(s)
    ensures TextTag(TagOf(s))
  {
  }

  lemma IntervalInText(s: string)
    requires ParseInterval(s).Some?
    ensures InText(ParseInterval(s).value)
  {
  }

  lemma PrintableMore(ivs: seq<Interval>, iv: Interval)
    requires Printable(ivs) && InText(iv)
    ensures Printable(ivs + [iv])
  {
    PrintableAt(ivs);
    PrintableAt(ivs + [iv]);
  }

  lemma {:induction false} TokensGather(m: Slices, tag: Tag, toks: seq<string>)
    requires Gathered(m) && TextTag(tag) && ParseTokens(m, tag, toks).Some?
    ensures Gathered(ParseTokens(m, tag, toks).value)
    ensures m != map[] || toks != [] ==> ParseTokens(m, tag, toks).value != map[]
    decreases |toks|
  {
    if toks != [] {
      if IsTagText(toks[0]) {
        var t := TagOf(toks[0]);
        TagOfText(toks[0]);
        var next := if t in m then m else m[t := []];
        assert t in next;
        TokensGather(next, t, toks[1..]);
      } else {
        var iv := ParseInterval(toks[0]).value;
        IntervalInText(toks[0]);
        PrintableMore(SliceOf(m, tag), iv);
        var next := m[tag := SliceOf(m, tag) + [iv]];
        assert tag in next;
        TokensGather(next, tag, toks[1..]);
      }
    }
  }

  /** Normalising keeps the numbers of a text. */
  lemma NormalInText(ivs: seq<Interval>)
    requires Printable(ivs) && ivs != []
    ensures Normal(ivs) != [] && IsNormal(Normal(ivs)) && Printable(Normal(ivs))
  {
    var n := Normal(ivs);
    PrintableAt(ivs);
    assert NonEmpty(ivs) by {
      forall i | 0 <= i < |ivs| ensures ivs[i].start < ivs[i].stop { assert InText(ivs[i]); }
    }
    NormalIsNormal(ivs);
    SortedOfSorts(ivs);
    assert |multiset(SortedOf(ivs))| == |multiset(ivs)|;
    NormalIsNonEmpty(n);
    forall i | 0 <= i < |n| ensures InText(n[i]) { EndsInText(ivs, n, i); }
    PrintableAt(n);
  }

  lemma EndsInText(ivs: seq<Interval>, n: seq<Interval>, i: nat)
    requires (forall k :: 0 <= k < |ivs| ==> InText(ivs[k])) && n == Normal(ivs) && i < |n| && n[i].start < n[i].stop
    ensures InText(n[i])
  {
    NumberInText(ivs, n, i, n[i].start);
    NumberInText(ivs, n, i, n[i].stop - 1);
  }

  lemma NumberInText(ivs: seq<Interval>, n: seq<Interval>, i: nat, x: int)
    requires (forall k :: 0 <= k < |ivs| ==> InText(ivs[k])) && n == Normal(ivs) && i < |n| && Has(n[i], x)
    ensures 0 <= x < MAX_INT64
  {
    InAt(x, n);
    NormalDenotes(ivs, x);
    InAt(x, ivs);
    var k :| 0 <= k < |ivs| && Has(ivs[k], x);
    assert InText(ivs[k]);
  }

  lemma SettledIsSound(m: Slices)
    requires Gathered(m) && m != map[] && Settle(m).Some?
    ensures Sound(Settle(m).value)
  {
    var n := NormalSlices(m);
    var t0 :| t0 in m;
    assert t0 in n;
    forall t | t in n ensures TextTag(t) && Printable(n[t]) && n[t] != [] && IsNormal(n[t]) { NormalInText(m[t]); }
  }

  lemma {:induction false} TagsAreText(ts: seq<Tag>, m: Slices)
    requires forall t :: t in ts ==> t in m && TextTag(t) && Printable(m[t])
    ensures AllPrintable(ts, m) && TextTags(ts)
  {
    if ts != [] {
      assert ts[0] in ts;
      TagsAreText(ts[1..], m);
    }
  }

  lemma SoundIsText(m: Slices)
    requires Sound(m)
    ensures TextSlices(m)
  {
    TagsAreText(SortKeys(m.Keys), m);
  }

  ghost predicate AllSound(s: Gtids) { forall u :: u in s ==> |u| == 16 && Sound(s[u]) }

  lemma UuidHas16(s: string)
    ensures ParseUuid(s).Some? ==> |ParseUuid(s).value| == 16
  {
  }

  lemma PartIsSound(s: Gtids, part: string)
    requires AllSound(s) && ParsePart(s, part).Some?
    ensures AllSound(ParsePart(s, part).value)
  {
    var sep := Split(TrimText(part), ':');
    UuidHas16(sep[0]);
    var u := ParseUuid(sep[0]).value;
    var before: Slices := if u in s then s[u] else map[];
    TokensGather(before, NO_TAG, sep[1..]);
    assert |sep[1..]| == |sep| - 1;
    SettledIsSound(ParseTokens(before, NO_TAG, sep[1..]).value);
  }

  lemma {:induction false} PartsAreSound(s: Gtids, parts: seq<string>)
    requires AllSound(s) && ParseParts(s, parts).Some?
    ensures AllSound(ParseParts(s, parts).value)
    decreases |parts|
  {
    if parts != [] {
      PartIsSound(s, parts[0]);
      PartsAreSound(ParsePart(s, parts[0]).value, parts[1..]);
    }
  }

  lemma {:induction false} SoundParts(us: seq<Uuid>, s: Gtids)
    requires AllSound(s) && forall u :: u in us ==> u in s
    ensures TextParts(us, s)
  {
    if us != [] {
      assert us[0] in us;
      SoundIsText(s[us[0]]);
      SoundParts(us[1..], s);
    }
  }

  /**
   Whatever is parsed has non-empty normal slices of numbers from zero up to below the
   64-bit maximum, and tags that start with a letter or an underscore.
   */
  lemma ParsedIsText(str: string)
    requires ParseSet(str).Some?
    ensures var s := ParseSet(str).value; TextParts(SortKeys(s.Keys), s)
  {
    if str != "" { PartsAreSound(map[], Split(str, ',')); }
    SoundParts(SortKeys(ParseSet(str).value.Keys), ParseSet(str).value);
  }

  /** Parsing a printed set gives the set back exactly when it is one that a text can say. */
  lemma ParsePrinted(s: Gtids)
    requires ServersOf(SortKeys(s.Keys), s)
    ensures ParseSet(Printed(s)) == Some(s) <==> TextParts(SortKeys(s.Keys), s)
  {
    if TextParts(SortKeys(s.Keys), s) { ParsePrintedText(s); }
    if ParseSet(Printed(s)) == Some(s) { ParsedIsText(Printed(s)); }
  }

  /** A tag that starts with a digit, as the binary form may hold it: the set is not read back. */
  lemma DigitTagIsLost(s: Gtids, u: Uuid, t: Tag)
    requires ServersOf(SortKeys(s.Keys), s) && u in s && t in s[u] && t != NO_TAG && 48 <= t[0] <= 57
    ensures ParseSet(Printed(s)) != Some(s)
  {
    ParsePrinted(s);
    if TextParts(SortKeys(s.Keys), s) { TextTagOf(SortKeys(s.Keys), s, u, t); }
  }

  lemma {:induction false} TextTagOf(us: seq<Uuid>, s: Gtids, u: Uuid, t: Tag)
    requires TextParts(us, s) && u in us && u in s && t in s[u]
    ensures TextTag(t)
    decreases |us|
  {
    if us[0] == u {
      TextTagIn(SortKeys(s[u].Keys), t);
    } else {
      TextTagOf(us[1..], s, u, t);
    }
  }

  lemma {:induction false} TextTagIn(ts: seq<Tag>, t: Tag)
    requires TextTags(ts) && t in ts
    ensures TextTag(t)
  {
    if ts[0] != t { TextTagIn(ts[1..], t); }
  }

  // ----- String and ParseMysqlGTIDSet as the source runs them -----

  lemma {:induction false} JoinedSum(c: char, a: seq<string>, b: seq<string>)
    ensures Joined(c, a + b) == Joined(c, a) + Joined(c, b)
  {
    if a == [] {
      assert a + b == b;
    } else {
      DropConcat(a, b, 1);
      JoinedSum(c, a[1..], b);
      ConcatAssoc(a[0], Joined(c, a[1..]), Joined(c, b));
      ConcatAssoc([c], a[0] + Joined(c, a[1..]), Joined(c, b));
    }
  }

  lemma {:induction false} JoinedOne(c: char, a: string)
    ensures Joined(c, [a]) == [c] + a
  {
    assert [a][1..] == [];
    ConcatEmpty(a);
  }

  method PrintIntervals(ivs: seq<Interval>) returns (r: string)
    ensures r == Joined(':', IntervalTokens(ivs))
  {
    r := "";
    var i := 0;
    assert ivs[0..] == ivs;
    while i < |ivs|
      invariant i <= |ivs| && r + Joined(':', IntervalTokens(ivs[i..])) == Joined(':', IntervalTokens(ivs))
    {
      assert ivs[i..][0] == ivs[i] && ivs[i..][1..] == ivs[i + 1..];
      ghost var rest := IntervalTokens(ivs[i + 1..]);
      JoinedSum(':', [Print(ivs[i])], rest);
      JoinedOne(':', Print(ivs[i]));
      ConcatAssoc(r, ":" + Print(ivs[i]), Joined(':', rest));
      r := r + (":" + Print(ivs[i]));
      i := i + 1;
    }
    ConcatEmpty(r);
  }

  method PrintTags(m: Slices) returns (r: string)
    ensures r == Joined(':', TokensOf(SortKeys(m.Keys), m))
  {
    var ts := CollectSorted(m.Keys);
    r := "";
    var i := 0;
    ghost var goal := Joined(':', TokensOf(ts, m));
    assert ts[0..] == ts;
    while i < |ts|
      invariant TagsAt(ts, m, i, r, goal)
    {
      var part := if ts[i] != NO_TAG then ":" + Chars(ts[i]) else "";
      var ivs := PrintIntervals(SliceOf(m, ts[i]));
      TagAdded(ts, m, i, r, part, ivs, goal);
      r := r + (part + ivs);
      i := i + 1;
    }
    ConcatEmpty(r);
  }

  /** The loop over the tags has printed the first `i` of them. */
  ghost predicate TagsAt(ts: seq<Tag>, m: Slices, i: nat, r: string, goal: string) {
    i <= |ts| && r + Joined(':', TokensOf(ts[i..], m)) == goal
  }

  lemma TagAdded(ts: seq<Tag>, m: Slices, i: nat, r: string, part: string, ivs: string, goal: string)
    requires i < |ts| && TagsAt(ts, m, i, r, goal)
    requires part == (if ts[i] != NO_TAG then ":" + Chars(ts[i]) else "")
    requires ivs == Joined(':', IntervalTokens(SliceOf(m, ts[i])))
    ensures TagsAt(ts, m, i + 1, r + (part + ivs), goal)
  {
    assert ts[i..][0] == ts[i] && ts[i..][1..] == ts[i + 1..];
    var rest := TokensOf(ts[i + 1..], m);
    TagPrinted(ts[i], SliceOf(m, ts[i]), part, ivs);
    JoinedSum(':', TagTokens(ts[i], SliceOf(m, ts[i])), rest);
    ConcatAssoc(r, part + ivs, Joined(':', rest));
  }

  lemma TagPrinted(t: Tag, ivs: seq<Interval>, part: string, text: string)
    requires part == (if t != NO_TAG then ":" + Chars(t) else "") && text == Joined(':', IntervalTokens(ivs))
    ensures Joined(':', TagTokens(t, ivs)) == part + text
  {
    if t == NO_TAG {
      assert [] + IntervalTokens(ivs) == IntervalTokens(ivs) && "" + text == text;
    } else {
      JoinedSum(':', [Chars(t)], IntervalTokens(ivs));
      JoinedOne(':', Chars(t));
    }
  }

  /** String: servers in sorted order, a comma before each but the first. */
  method PrintSet(s: Gtids) returns (r: string)
    requires ServersOf(SortKeys(s.Keys), s)
    ensures r == Printed(s)
  {
    var us := CollectSorted(s.Keys);
    r := "";
    var sep, i := "", 0;
    ghost var goal := Printed(s);
    assert us[0..] == us;
    while i < |us|
      invariant sep == (if i == 0 then "" else ",") && ServersAt(us, s, i, r, goal)
    {
      ServerAt(us, s, i);
      var tags := PrintTags(s[us[i]]);
      var part := UuidText(us[i]) + tags;
      ServerAdded(us, s, i, r, sep, part, goal);
      r := r + (sep + part);
      sep, i := ",", i + 1;
    }
    AllServers(us, s, r, goal);
  }

  /** The loop over the servers has printed the first `i` of them. */
  ghost predicate ServersAt(us: seq<Uuid>, s: Gtids, i: nat, r: string, goal: string) {
    i <= |us| && ServersOf(us[i..], s)
    && if i == 0 then r == "" && goal == Line(PartTexts(us[i..], s)) else r + Joined(',', PartTexts(us[i..], s)) == goal
  }

  lemma ServerAt(us: seq<Uuid>, s: Gtids, i: nat)
    requires i < |us| && ServersOf(us[i..], s)
    ensures us[i] in s && |us[i]| == 16 && ServersOf(us[i + 1..], s)
    ensures PartTexts(us[i..], s) == [PartText(us[i], s[us[i]])] + PartTexts(us[i + 1..], s)
  {
    assert us[i..][0] == us[i] && us[i..][1..] == us[i + 1..];
  }

  lemma ServerAdded(us: seq<Uuid>, s: Gtids, i: nat, r: string, sep: string, part: string, goal: string)
    requires i < |us| && ServersAt(us, s, i, r, goal) && sep == if i == 0 then "" else ","
    requires us[i] in s && |us[i]| == 16 && part == PartText(us[i], s[us[i]])
    ensures ServersAt(us, s, i + 1, r + (sep + part), goal)
  {
    ServerAt(us, s, i);
    ServerPrinted(sep, part, PartTexts(us[i + 1..], s), r, i == 0, PartTexts(us[i..], s));
  }

  lemma AllServers(us: seq<Uuid>, s: Gtids, r: string, goal: string)
    requires ServersAt(us, s, |us|, r, goal)
    ensures r == goal
  {
    assert us[|us|..] == [];
    ConcatEmpty(r);
  }

  lemma ServerPrinted(sep: string, part: string, rest: seq<string>, r: string, first: bool, parts: seq<string>)
    requires parts == [part] + rest && sep == if first then "" else ","
    ensures first && r == "" ==> r + (sep + part) + Joined(',', rest) == parts[0] + Joined(',', parts[1..])
    ensures !first ==> r + (sep + part) + Joined(',', rest) == r + Joined(',', parts)
  {
    assert parts[1..] == rest;
    if first {
      assert r == "" ==> r + (sep + part) == part;
    } else {
      JoinedSum(',', [part], rest);
      JoinedOne(',', part);
      ConcatAssoc(r, "," + part, Joined(',', rest));
    }
  }

  /** The loop over the tokens of one server. */
  method ReadTokens(start: Slices, toks: seq<string>) returns (r: Option<Slices>)
    ensures r == ParseTokens(start, NO_TAG, toks)
  {
    var m, tag: Tag, i := start, NO_TAG, 0;
    assert toks[0..] == toks;
    while i < |toks|
      invariant i <= |toks| && ParseTokens(start, NO_TAG, toks) == ParseTokens(m, tag, toks[i..])
    {
      assert toks[i..][0] == toks[i] && toks[i..][1..] == toks[i + 1..];
      if IsTagText(toks[i]) {
        tag := TagOf(toks[i]);
        if tag !in m { m := m[tag := []]; }
      } else {
        var iv := ParseInterval(toks[i]);
        if iv.None? { return None; }
        m := m[tag := (if tag in m then m[tag] else []) + [iv.value]];
      }
      i := i + 1;
    }
    r := Some(m);
  }

  /** ParseMysqlGTIDSet: one loop over the servers. */
  method ParseMysqlGTIDSet(str: string) returns (r: Option<Gtids>)
    ensures r == ParseSet(str)
  {
    if str == "" { return Some(map[]); }
    var parts := Split(str, ',');
    var s: Gtids, i := map[], 0;
    assert parts[0..] == parts;
    while i < |parts|
      invariant i <= |parts| && ParseParts(map[], parts) == ParseParts(s, parts[i..])
    {
      assert parts[i..][0] == parts[i] && parts[i..][1..] == parts[i + 1..];
      var sep := Split(TrimText(parts[i]), ':');
      if |sep| < 2 { return None; }
      var u := ParseUuid(sep[0]);
      if u.None? { return None; }
      var m := ReadTokens(if u.value in s then s[u.value] else map[], sep[1..]);
      if m.None? { return None; }
      var n := Settle(m.value);
      if n.None? { return None; }
      s, i := s[u.value := n.value], i + 1;
    }
    r := Some(s);
  }
}
