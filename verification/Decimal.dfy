/**
 Packed DECIMAL columns (decodeDecimal in replication/row_event.go). Digits are
 stored big-endian in groups of nine per four bytes, with shorter groups at
 both ends; a negative number has every byte complemented, and the top bit of
 the first byte is flipped so that the encodings sort as the numbers do.
 */
module PackedDecimal {
  import opened Bytes
  import opened Digits
  import opened Lists

  const DIGITS_PER_INTEGER := 9

  /** compressedBytes = {0, 1, 1, 2, 2, 3, 3, 4, 4, 4}. */
  function CompressedBytes(digits: nat): (n: nat)
    requires digits <= 9
  {
    if digits == 0 then 0 else if digits <= 2 then 1 else if digits <= 4 then 2 else if digits <= 6 then 3 else 4
  }

  /** How a DECIMAL(precision, decimals) splits: leading digits, integer groups, fraction groups, trailing digits. */
  datatype Layout = Layout(ci: nat, ni: nat, nf: nat, cf: nat) {
    predicate Valid() { ci < 9 && cf < 9 }

    /** binSize */
    function Size(): (n: nat)
      requires Valid()
    {
      ni * 4 + CompressedBytes(ci) + nf * 4 + CompressedBytes(cf)
    }
  }

  function LayoutOf(precision: nat, decimals: nat): (l: Layout)
    requires decimals <= precision
    ensures l.Valid() && 9 * l.ni + l.ci + 9 * l.nf + l.cf == precision && 9 * l.nf + l.cf == decimals
  {
    var integral := precision - decimals;
    var ni, nf := integral / DIGITS_PER_INTEGER, decimals / DIGITS_PER_INTEGER;
    Layout(integral - ni * DIGITS_PER_INTEGER, ni, nf, decimals - nf * DIGITS_PER_INTEGER)
  }

  // ----- the format, as the server writes it -----

  predicate IsGroup(g: string) { |g| == 9 && AllDigits(g) }

  predicate AreGroups(gs: seq<string>) { forall i :: 0 <= i < |gs| ==> IsGroup(gs[i]) }

  /** A signed value with all its digits, grouped as the column's layout groups them. */
  datatype Value = Value(negative: bool, lead: string, whole: seq<string>, frac: seq<string>, tail: string) {
    predicate Fits(l: Layout) {
      && AllDigits(lead) && AreGroups(whole) && AreGroups(frac) && AllDigits(tail)
      && l == Layout(|lead|, |whole|, |frac|, |tail|) && l.Valid() && l.Size() > 0
    }

    function Integral(): (s: string) { lead + Flatten(whole) }
    function Fraction(): (s: string) { Flatten(frac) + tail }
  }

  function EncodeGroup(s: string): (b: bytes)
    requires AllDigits(s) && |s| <= 9
    ensures |b| == CompressedBytes(|s|)
  {
    BE(CompressedBytes(|s|), ValueOf(s))
  }

  function EncodeGroups(gs: seq<string>): (b: bytes)
    requires AreGroups(gs)
    ensures |b| == 4 * |gs|
  {
    if gs == [] then [] else EncodeGroup(gs[0]) + EncodeGroups(gs[1..])
  }

  function Magnitude(v: Value, l: Layout): (b: bytes)
    requires v.Fits(l)
    ensures |b| == l.Size()
  {
    EncodeGroup(v.lead) + EncodeGroups(v.whole) + EncodeGroups(v.frac) + EncodeGroup(v.tail)
  }

  function Complement(b: bytes): (r: bytes)
    ensures |r| == |b|
  {
    seq(|b|, i requires 0 <= i < |b| => 255 - b[i])
  }

  /** data[0] ^= 0x80. */
  function FlipTop(b: bytes): (r: bytes)
    requires b != []
    ensures |r| == |b|
  {
    b[0 := if b[0] < 128 then b[0] + 128 else b[0] - 128]
  }

  function Masked(b: bytes, negative: bool): (r: bytes)
    ensures |r| == |b|
  {
    if negative then Complement(b) else b
  }

  function Encode(v: Value, l: Layout): (b: bytes)
    requires v.Fits(l)
    ensures |b| == l.Size()
  {
    FlipTop(Masked(Magnitude(v, l), v.negative))
  }

  function StripZeros(s: string): (r: string) {
    if s != "" && s[0] == '0' then StripZeros(s[1..]) else s
  }

  /** The text of a value: no leading zeros, exactly the declared fraction digits. */
  function Render(v: Value): (s: string) {
    if v.Fraction() == "" then IntegralOf(v) else IntegralOf(v) + ("." + v.Fraction())
  }

  function IntegralOf(v: Value): (s: string) {
    var digits := StripZeros(v.Integral());
    (if v.negative then "-" else "") + (if digits == "" then "0" else digits)
  }

  // ----- the decoder -----

  /** A group of bytes as a number after x ^ mask, the mask being all ones for a negative value. */
  function Group(b: bytes, negative: bool): (v: nat)
  {
    BigEndianBound(b);
    if negative then Pow256(|b|) - 1 - FromBE(b) else FromBE(b)
  }

  /** One integer group: nothing for leading zeros, else nine digits after the first. None is a slice-bounds panic. */
  function AppendInteger(acc: string, v: nat): (r: Option<string>)
  {
    if acc == "" then Some(if v == 0 then "" else FormatNat(v)) else AppendFraction(acc, v)
  }

  function AppendFraction(acc: string, v: nat): (r: Option<string>)
  {
    if |FormatNat(v)| > 9 then None else Some(acc + (Zeros(9 - |FormatNat(v)|) + FormatNat(v)))
  }

  /** One of the two whole-group loops. */
  function Groups(acc: string, b: bytes, k: nat, negative: bool, fraction: bool): (r: Option<string>)
    requires |b| == 4 * k
    decreases k
  {
    if k == 0 then Some(acc)
    else
      var v := Group(b[..4], negative);
      match (if fraction then AppendFraction(acc, v) else AppendInteger(acc, v))
      case None => None
      case Some(acc') => Groups(acc', b[4..], k - 1, negative, fraction)
  }

  function LastGroup(digits: nat, v: nat): (r: string)
  {
    (if digits > |FormatNat(v)| then Zeros(digits - |FormatNat(v)|) else "") + FormatNat(v)
  }

  function DecodeIntegral(lead: bytes, whole: bytes, k: nat, negative: bool): (r: Option<string>)
    requires |whole| == 4 * k
  {
    var v := Group(lead, negative);
    match Groups(if v != 0 then FormatNat(v) else "", whole, k, negative, false)
    case None => None
    case Some(digits) => Some((if negative then "-" else "") + (if digits == "" then "0" else digits))
  }

  function DecodeFraction(frac: bytes, k: nat, tail: bytes, cf: nat, negative: bool): (r: Option<string>)
    requires |frac| == 4 * k
  {
    match Groups("", frac, k, negative, true)
    case None => None
    case Some(digits) => Some("." + (if cf == 0 then digits else digits + LastGroup(cf, Group(tail, negative))))
  }

  /** The text decoded from a buffer of exactly binSize bytes with the sign bit already flipped. */
  function DecodeBody(buf: bytes, l: Layout, negative: bool): (r: Option<string>)
    requires l.Valid() && |buf| == l.Size()
  {
    var c := CompressedBytes(l.ci);
    var m := c + 4 * l.ni;
    var f := m + 4 * l.nf;
    match DecodeIntegral(buf[..c], buf[c..m], l.ni, negative)
    case None => None
    case Some(text) =>
      if m == |buf| then Some(text)
      else match DecodeFraction(buf[m..f], l.nf, buf[f..], l.cf, negative)
        case None => None
        case Some(frac) => Some(text + frac)
  }

  /** binSize when the scale exceeds the precision by k times nine digits: -k integer groups, with Go's division. */
  function NegativeSize(precision: nat, decimals: nat, k: nat): (n: int) {
    -4 * k + 4 * (decimals / 9) + CompressedBytes(decimals % 9)
  }

  /**
   Why a scale above the precision always panics: the digits that are no whole group
   give a negative table index, and without such digits the fraction needs more bytes
   than the buffer has.
   */
  lemma ScaleAbovePrecision(precision: nat, decimals: nat, k: nat)
    requires k > 0 && decimals == precision + 9 * k
    ensures NegativeSize(precision, decimals, k) < 4 * (decimals / 9) + CompressedBytes(decimals % 9)
    ensures NegativeSize(precision, decimals, k) == 4 * (precision / 9) + CompressedBytes(precision % 9)
  {
    assert decimals / 9 == precision / 9 + k && decimals % 9 == precision % 9;
  }

  /**
   decodeDecimal with useDecimal off; None is a panic on truncated or oversized input, or on a
   scale above the precision.
   */
  function Decode(data: bytes, precision: nat, decimals: nat): (r: Option<(string, nat)>)
  {
    if decimals > precision then None
    else
      var l := LayoutOf(precision, decimals);
      if l.Size() == 0 || |data| < l.Size() then None
      else
        match DecodeBody(FlipTop(data[..l.Size()]), l, data[0] < 128)
        case None => None
        case Some(text) => Some((text, l.Size()))
  }

  /** The loop `for range uncompIntegral` or `for range uncompFractional` over the cursor. */
  method ReadGroups(buf: bytes, start: nat, k: nat, acc0: string, negative: bool, fraction: bool)
    returns (r: Option<string>, pos: nat)
    requires start + 4 * k <= |buf|
    ensures r == Groups(acc0, buf[start..start + 4 * k], k, negative, fraction)
    ensures r.Some? ==> pos == start + 4 * k
  {
    pos := start;
    var acc, i := acc0, 0;
    ghost var end := start + 4 * k;
    ghost var goal := Groups(acc0, buf[start..end], k, negative, fraction);
    while i < k
      invariant 0 <= i <= k && pos == start + 4 * i && end == pos + 4 * (k - i)
      invariant goal == Groups(acc, buf[pos..end], k - i, negative, fraction)
    {
      NextGroup(buf, pos, end);
      var value := Group(buf[pos..pos + 4], negative);
      pos := pos + 4;
      var next := if fraction then AppendFraction(acc, value) else AppendInteger(acc, value);
      if next.None? { return None, pos; }
      acc := next.value;
      i := i + 1;
    }
    r := Some(acc);
  }

  lemma NextGroup(buf: bytes, pos: nat, end: nat)
    requires pos + 4 <= end <= |buf|
    ensures buf[pos..end][..4] == buf[pos..pos + 4] && buf[pos..end][4..] == buf[pos + 4..end]
  {
  }

  /** decodeDecimal as written: a private copy with its sign bit flipped, one cursor, text built on the way. */
  method DecodeDecimal(data: bytes, precision: nat, decimals: nat) returns (r: Option<(string, nat)>)
    ensures r == Decode(data, precision, decimals)
  {
    if decimals > precision { return None; }
    var l := LayoutOf(precision, decimals);
    var binSize := l.Size();
    if binSize == 0 || |data| < binSize { return None; }
    var negative := data[0] < 128;
    var buf := FlipTop(data[..binSize]);
    var body := DecodeBuffer(buf, l, negative);
    r := if body.None? then None else Some((body.value, binSize));
  }

  /** The text-building part of decodeDecimal; the cursor ends at the end of the buffer. */
  method DecodeBuffer(buf: bytes, l: Layout, negative: bool) returns (r: Option<string>)
    requires l.Valid() && |buf| == l.Size()
    ensures r == DecodeBody(buf, l, negative)
  {
    var res, pos := ReadIntegral(buf, CompressedBytes(l.ci), l.ni, negative);
    if res.None? || pos == |buf| { return res; }
    var frac := ReadFraction(buf, pos, l.nf, l.cf, negative);
    if frac.None? { return None; }
    r := Some(res.value + frac.value);
  }

  /** The sign and the digits before the point. */
  method ReadIntegral(buf: bytes, c: nat, ni: nat, negative: bool) returns (r: Option<string>, pos: nat)
    requires c + 4 * ni <= |buf|
    ensures r == DecodeIntegral(buf[..c], buf[c..c + 4 * ni], ni, negative)
    ensures r.Some? ==> pos == c + 4 * ni
  {
    var value := Group(buf[..c], negative);
    var digits;
    digits, pos := ReadGroups(buf, c, ni, if value != 0 then FormatNat(value) else "", negative, false);
    if digits.None? { return None, pos; }
    r := Some((if negative then "-" else "") + (if digits.value == "" then "0" else digits.value));
  }

  /** The point and the digits after it. */
  method ReadFraction(buf: bytes, start: nat, nf: nat, cf: nat, negative: bool) returns (r: Option<string>)
    requires cf < 9 && |buf| == start + 4 * nf + CompressedBytes(cf)
    ensures r == DecodeFraction(buf[start..start + 4 * nf], nf, buf[start + 4 * nf..], cf, negative)
  {
    var digits, pos := ReadGroups(buf, start, nf, "", negative, true);
    if digits.None? { return None; }
    var frac := digits.value;
    if CompressedBytes(cf) > 0 {
      var value := Group(buf[pos..], negative);
      frac := frac + LastGroup(cf, value);
    }
    r := Some("." + frac);
  }

  // ----- decoding inverts the format -----

  /** A k-digit group never reaches the top bit of its bytes, and in fewer bytes it would. */
  lemma GroupBound(k: nat)
    requires 1 <= k <= 9
    ensures CompressedBytes(k) > 0 && Pow256(CompressedBytes(k) - 1) < 2 * Pow10(k) <= Pow256(CompressedBytes(k))
  {
    assert Pow10(1) == 10 && Pow10(2) == 100 && Pow10(3) == 1000 && Pow10(4) == 1_0000 && Pow10(5) == 10_0000
        && Pow10(6) == 100_0000 && Pow10(7) == 1000_0000 && Pow10(8) == 1_0000_0000 && Pow10(9) == 10_0000_0000;
    assert Pow256(0) == 1 && Pow256(1) == 256 && Pow256(2) == 65536 && Pow256(3) == 1677_7216
        && Pow256(4) == 42_9496_7296;
  }

  lemma {:induction false} TopByte(n: nat, v: nat)
    requires n > 0 && 2 * v < Pow256(n)
    ensures BE(n, v)[0] < 128
  {
    if n > 1 {
      TopByte(n - 1, v / 256);
    } else {
      assert Pow256(1) == 256;
    }
  }

  lemma GroupRoundTrip(s: string)
    requires AllDigits(s) && |s| <= 9
    ensures FromBE(EncodeGroup(s)) == ValueOf(s)
    ensures s != "" ==> EncodeGroup(s)[0] < 128
  {
    if s != "" {
      ValueBound(s);
      GroupBound(|s|);
      BigEndianRoundTrip(CompressedBytes(|s|), ValueOf(s));
      TopByte(CompressedBytes(|s|), ValueOf(s));
    }
  }

  /** Complementing every byte complements the number. */
  lemma {:induction false} ComplementValue(b: bytes)
    ensures FromBE(Complement(b)) == Pow256(|b|) - 1 - FromBE(b)
  {
    if b != [] {
      var k := |b| - 1;
      ComplementValue(b[..k]);
      assert Complement(b)[..k] == Complement(b[..k]);
    }
  }

  /** Stored as written or complemented, a group reads back as its digits' number. */
  lemma GroupRead(s: string, negative: bool)
    requires AllDigits(s) && |s| <= 9
    ensures Group(Masked(EncodeGroup(s), negative), negative) == ValueOf(s)
  {
    GroupRoundTrip(s);
    ComplementValue(EncodeGroup(s));
  }

  lemma {:induction false} StripZerosConcat(a: string, b: string)
    ensures StripZeros(a + b) == if StripZeros(a) == "" then StripZeros(b) else StripZeros(a) + b
  {
    if a == "" {
      assert a + b == b;
    } else if a[0] == '0' {
      StripZerosConcat(a[1..], b);
      assert (a + b)[1..] == a[1..] + b;
    }
  }

  lemma {:induction false} StripAllZeros(k: nat)
    ensures StripZeros(Zeros(k)) == ""
  {
    if k > 0 {
      StripAllZeros(k - 1);
      assert Zeros(k)[1..] == Zeros(k - 1);
    }
  }

  lemma StrippedIsFormatted(s: string)
    requires AllDigits(s)
    ensures StripZeros(s) == if ValueOf(s) == 0 then "" else FormatNat(ValueOf(s))
  {
    if s != "" {
      var n := ValueOf(s);
      PaddedGroup(s, n, FormatNat(n));
      FormatNatValue(n);
      var z := |s| - |FormatNat(n)|;
      StripAllZeros(z);
      StripZerosConcat(Zeros(z), FormatNat(n));
      if n == 0 { StripAllZeros(|s|); ZeroText(s); }
    }
  }

  lemma {:induction false} ZeroText(s: string)
    requires AllDigits(s) && ValueOf(s) == 0
    ensures s == Zeros(|s|)
  {
    ZerosValue(|s|);
    SameLengthSameValue(s, Zeros(|s|));
  }

  /** Appending a whole group to stripped or to raw digits. */
  lemma AppendedGroup(done: string, g: string)
    requires IsGroup(g)
    ensures AppendInteger(StripZeros(done), ValueOf(g)) == Some(StripZeros(done + g))
    ensures AppendFraction(done, ValueOf(g)) == Some(done + g)
  {
    StripZerosConcat(done, g);
    StrippedIsFormatted(g);
    var n := ValueOf(g);
    PaddedGroup(g, n, FormatNat(n));
  }

  lemma MaskedSlice(b: bytes, negative: bool, i: nat, j: nat)
    requires i <= j <= |b|
    ensures Masked(b, negative)[i..j] == Masked(b[i..j], negative)
  {
  }

  lemma MaskedHead(gs: seq<string>, negative: bool)
    requires AreGroups(gs) && gs != []
    ensures var b := Masked(EncodeGroups(gs), negative);
      b[..4] == Masked(EncodeGroup(gs[0]), negative) && b[4..] == Masked(EncodeGroups(gs[1..]), negative)
  {
    var e := EncodeGroups(gs);
    assert e[..4] == EncodeGroup(gs[0]) && e[4..] == EncodeGroups(gs[1..]);
    MaskedSlice(e, negative, 0, 4);
    MaskedSlice(e, negative, 4, |e|);
    assert Masked(e, negative)[4..|e|] == Masked(e, negative)[4..] && e[4..|e|] == e[4..];
  }

  lemma GroupsStep(acc: string, b: bytes, k: nat, negative: bool, fraction: bool, v: nat, next: string, tail: bytes,
                   r: Option<string>)
    requires k > 0 && |b| == 4 * k && Group(b[..4], negative) == v && b[4..] == tail
    requires (if fraction then AppendFraction(acc, v) else AppendInteger(acc, v)) == Some(next)
    requires Groups(next, tail, k - 1, negative, fraction) == r
    ensures Groups(acc, b, k, negative, fraction) == r
  {
  }

  lemma {:induction false} IntegerGroups(done: string, gs: seq<string>, negative: bool)
    requires AreGroups(gs)
    ensures Groups(StripZeros(done), Masked(EncodeGroups(gs), negative), |gs|, negative, false)
         == Some(StripZeros(done + Flatten(gs)))
    decreases |gs|
  {
    if gs == [] {
      assert done + Flatten(gs) == done;
    } else {
      MaskedHead(gs, negative);
      GroupRead(gs[0], negative);
      AppendedGroup(done, gs[0]);
      IntegerGroups(done + gs[0], gs[1..], negative);
      ConcatAssoc(done, gs[0], Flatten(gs[1..]));
      GroupsStep(StripZeros(done), Masked(EncodeGroups(gs), negative), |gs|, negative, false, ValueOf(gs[0]),
                 StripZeros(done + gs[0]), Masked(EncodeGroups(gs[1..]), negative),
                 Some(StripZeros(done + Flatten(gs))));
    }
  }

  lemma {:induction false} FractionGroups(done: string, gs: seq<string>, negative: bool)
    requires AreGroups(gs)
    ensures Groups(done, Masked(EncodeGroups(gs), negative), |gs|, negative, true) == Some(done + Flatten(gs))
    decreases |gs|
  {
    if gs == [] {
      assert done + Flatten(gs) == done;
    } else {
      MaskedHead(gs, negative);
      GroupRead(gs[0], negative);
      AppendedGroup(done, gs[0]);
      FractionGroups(done + gs[0], gs[1..], negative);
      ConcatAssoc(done, gs[0], Flatten(gs[1..]));
      GroupsStep(done, Masked(EncodeGroups(gs), negative), |gs|, negative, true, ValueOf(gs[0]), done + gs[0],
                 Masked(EncodeGroups(gs[1..]), negative), Some(done + Flatten(gs)));
    }
  }

  /** The sign bit survives: the first byte of a magnitude is below 128. */
  lemma MagnitudeTop(v: Value, l: Layout)
    requires v.Fits(l)
    ensures Magnitude(v, l)[0] < 128
  {
    GroupRoundTrip(v.lead);
    GroupRoundTrip(v.tail);
    if v.whole != [] { GroupRoundTrip(v.whole[0]); }
    if v.frac != [] { GroupRoundTrip(v.frac[0]); }
    assert EncodeGroups([]) == [];
  }

  lemma SignRecovered(v: Value, l: Layout)
    requires v.Fits(l)
    ensures Encode(v, l)[0] < 128 <==> v.negative
    ensures FlipTop(Encode(v, l)) == Masked(Magnitude(v, l), v.negative)
  {
    MagnitudeTop(v, l);
  }

  lemma IntegralText(v: Value, l: Layout)
    requires v.Fits(l)
    ensures DecodeIntegral(Masked(EncodeGroup(v.lead), v.negative), Masked(EncodeGroups(v.whole), v.negative), l.ni,
      v.negative)
         == Some(IntegralOf(v))
  {
    GroupRead(v.lead, v.negative);
    StrippedIsFormatted(v.lead);
    IntegerGroups(v.lead, v.whole, v.negative);
  }

  lemma FractionText(v: Value, l: Layout)
    requires v.Fits(l)
    ensures DecodeFraction(Masked(EncodeGroups(v.frac), v.negative), l.nf, Masked(EncodeGroup(v.tail), v.negative),
      l.cf, v.negative)
         == Some("." + v.Fraction())
  {
    FractionGroups("", v.frac, v.negative);
    assert "" + Flatten(v.frac) == Flatten(v.frac);
    if v.tail == "" {
      assert v.Fraction() == Flatten(v.frac);
    } else {
      GroupRead(v.tail, v.negative);
      TailText(v.tail);
    }
  }

  lemma TailText(s: string)
    requires AllDigits(s) && s != ""
    ensures LastGroup(|s|, ValueOf(s)) == s
  {
    var t := FormatNat(ValueOf(s));
    PaddedGroup(s, ValueOf(s), t);
    assert Zeros(0) + t == "" + t;
  }

  lemma {:induction false} FlattenGroupsLength(gs: seq<string>)
    requires AreGroups(gs)
    ensures |Flatten(gs)| == 9 * |gs|
  {
    if gs != [] { FlattenGroupsLength(gs[1..]); }
  }

  lemma MaskedParts(a: bytes, b: bytes, c: bytes, d: bytes, negative: bool)
    ensures Masked(a + b + c + d, negative)
         == Masked(a, negative) + Masked(b, negative) + Masked(c, negative) + Masked(d, negative)
  {
  }

  lemma FourParts(a: bytes, b: bytes, c: bytes, d: bytes, s: bytes)
    requires s == a + b + c + d
    ensures |s| == |a| + |b| + |c| + |d|
      && s[..|a|] == a && s[|a|..|a| + |b|] == b
      && s[|a| + |b|..|a| + |b| + |c|] == c && s[|a| + |b| + |c|..] == d
  {
  }

  lemma BodyOfParts(a: bytes, b: bytes, c: bytes, d: bytes, l: Layout, negative: bool, text: string, frac: string)
    requires l.Valid() && |a| == CompressedBytes(l.ci) && |b| == 4 * l.ni && |c| == 4 * l.nf
      && |d| == CompressedBytes(l.cf)
    requires DecodeIntegral(a, b, l.ni, negative) == Some(text)
    requires DecodeFraction(c, l.nf, d, l.cf, negative) == Some(frac)
    ensures DecodeBody(a + b + c + d, l, negative) == Some(if c + d == [] then text else text + frac)
  {
    FourParts(a, b, c, d, a + b + c + d);
    PartsDecode(a + b + c + d, a, b, c, d, l, negative, text, frac);
  }

  lemma PartsDecode(s: bytes, a: bytes, b: bytes, c: bytes, d: bytes, l: Layout, negative: bool, text: string,
                    frac: string)
    requires l.Valid() && |a| == CompressedBytes(l.ci) && |b| == 4 * l.ni && |c| == 4 * l.nf
      && |d| == CompressedBytes(l.cf)
    requires |s| == |a| + |b| + |c| + |d| && s[..|a|] == a && s[|a|..|a| + |b|] == b
    requires s[|a| + |b|..|a| + |b| + |c|] == c && s[|a| + |b| + |c|..] == d
    requires DecodeIntegral(a, b, l.ni, negative) == Some(text)
    requires DecodeFraction(c, l.nf, d, l.cf, negative) == Some(frac)
    ensures DecodeBody(s, l, negative) == Some(if |c| + |d| == 0 then text else text + frac)
  {
  }

  lemma BodyText(v: Value, l: Layout)
    requires v.Fits(l)
    ensures DecodeBody(Masked(Magnitude(v, l), v.negative), l, v.negative) == Some(Render(v))
  {
    var lead, whole, frac, tail := EncodeGroup(v.lead), EncodeGroups(v.whole), EncodeGroups(v.frac),
      EncodeGroup(v.tail);
    var neg, text := v.negative, IntegralOf(v);
    MaskedParts(lead, whole, frac, tail, neg);
    IntegralText(v, l);
    FractionText(v, l);
    BodyOfParts(Masked(lead, neg), Masked(whole, neg), Masked(frac, neg), Masked(tail, neg), l, neg, text,
      "." + v.Fraction());
    FlattenGroupsLength(v.frac);
    assert Masked(frac, neg) + Masked(tail, neg) == [] <==> v.Fraction() == "" by {
      assert |Masked(frac, neg) + Masked(tail, neg)| == 4 * |v.frac| + CompressedBytes(|v.tail|);
      assert |v.Fraction()| == 9 * |v.frac| + |v.tail|;
    }
  }

  /** Decoding what the server wrote for any value of any DECIMAL(p, s) gives exactly its text and length. */
  lemma DecodeEncode(v: Value, precision: nat, decimals: nat, rest: bytes)
    requires decimals <= precision && v.Fits(LayoutOf(precision, decimals))
    ensures Decode(Encode(v, LayoutOf(precision, decimals)) + rest, precision, decimals)
         == Some((Render(v), LayoutOf(precision, decimals).Size()))
    ensures |v.Fraction()| == decimals && |v.Integral()| == precision - decimals
  {
    var l := LayoutOf(precision, decimals);
    var data := Encode(v, l) + rest;
    assert data[..l.Size()] == Encode(v, l);
    SignRecovered(v, l);
    BodyText(v, l);
    FlattenGroupsLength(v.frac);
    FlattenGroupsLength(v.whole);
  }

  function NinesOf(s: string): (gs: seq<string>)
    requires AllDigits(s) && |s| % 9 == 0
    ensures AreGroups(gs) && Flatten(gs) == s && 9 * |gs| == |s|
  {
    if s == "" then [] else [s[..9]] + NinesOf(s[9..])
  }

  /** Every digit string of the declared lengths is the digits of some stored value. */
  lemma EveryDecimalIsStorable(negative: bool, integral: string, fraction: string) returns (v: Value)
    requires AllDigits(integral) && AllDigits(fraction) && |integral| + |fraction| > 0
    ensures v.negative == negative && v.Integral() == integral && v.Fraction() == fraction
    ensures v.Fits(LayoutOf(|integral| + |fraction|, |fraction|))
  {
    var ci, cf := |integral| % 9, |fraction| - |fraction| % 9;
    v := Value(negative, integral[..ci], NinesOf(integral[ci..]), NinesOf(fraction[..cf]), fraction[cf..]);
    assert integral[..ci] + integral[ci..] == integral && fraction[..cf] + fraction[cf..] == fraction;
  }

  /** The printed integer part denotes the stored digits. */
  lemma RenderedIntegerValue(s: string)
    requires AllDigits(s)
    ensures AllDigits(StripZeros(s)) && ValueOf(StripZeros(s)) == ValueOf(s)
  {
    StrippedIsFormatted(s);
    FormatNatValue(ValueOf(s));
  }
}
