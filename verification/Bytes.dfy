/**
 Bytes and the fixed-width integers the wire and disk formats are made of.
 Models mysql/util.go (FixedLengthInt, BFixedLengthInt, the length-encoded
 integers and strings) and mysql/parse_binary.go. Bit operations on unsigned
 values are written as division and remainder by powers of 256.
 */
module Bytes {
  datatype Option<+T> = None | Some(value: T)

  type byte = b: int | 0 <= b < 256
  type bytes = seq<byte>

  function Pow256(n: nat): (r: nat)
    ensures r >= 1
  {
    if n == 0 then 1 else 256 * Pow256(n - 1)
  }

  /** The low `n` bytes of `v`, least significant first. */
  function LE(n: nat, v: nat): (s: bytes)
    ensures |s| == n
  {
    if n == 0 then [] else [v % 256] + LE(n - 1, v / 256)
  }

  function FromLE(s: bytes): (v: nat)
  {
    if s == [] then 0 else s[0] + 256 * FromLE(s[1..])
  }

  /** The low `n` bytes of `v`, most significant first. */
  function BE(n: nat, v: nat): (s: bytes)
    ensures |s| == n
  {
    if n == 0 then [] else BE(n - 1, v / 256) + [v % 256]
  }

  function FromBE(s: bytes): (v: nat)
  {
    if s == [] then 0 else 256 * FromBE(s[..|s| - 1]) + s[|s| - 1]
  }

  /** The two's complement reading of an unsigned `n`-byte value: Go's intN(uintN). */
  function ToSigned(n: nat, u: nat): (i: int)
  {
    if 2 * u < Pow256(n) then u else u - Pow256(n)
  }

  /** The unsigned `n`-byte value with the same bits as `i`: Go's uintN(intN). */
  function ToUnsigned(n: nat, i: int): (u: nat)
    requires 0 <= i + Pow256(n)
  {
    if i >= 0 then i else i + Pow256(n)
  }

  predicate FitsSigned(n: nat, i: int) {
    0 <= 2 * i + Pow256(n) && 2 * i < Pow256(n)
  }

  lemma {:induction false} LittleEndianRoundTrip(n: nat, v: nat)
    ensures FromLE(LE(n, v)) == v <==> v < Pow256(n)
    ensures FromLE(LE(n, v)) < Pow256(n)
  {
    if n > 0 {
      LittleEndianRoundTrip(n - 1, v / 256);
      assert LE(n, v)[1..] == LE(n - 1, v / 256);
    }
  }

  lemma {:induction false} LittleEndianIsOnto(s: bytes)
    ensures FromLE(s) < Pow256(|s|)
    ensures LE(|s|, FromLE(s)) == s
  {
    if s != [] {
      LittleEndianIsOnto(s[1..]);
      assert FromLE(s) / 256 == FromLE(s[1..]);
    }
  }

  lemma {:induction false} BigEndianRoundTrip(n: nat, v: nat)
    ensures FromBE(BE(n, v)) == v <==> v < Pow256(n)
    ensures FromBE(BE(n, v)) < Pow256(n)
  {
    if n > 0 {
      BigEndianRoundTrip(n - 1, v / 256);
      assert BE(n, v)[..n - 1] == BE(n - 1, v / 256);
    }
  }

  lemma {:induction false} BigEndianBound(s: bytes)
    ensures FromBE(s) < Pow256(|s|)
    ensures BE(|s|, FromBE(s)) == s
  {
    if s != [] {
      BigEndianBound(s[..|s| - 1]);
      assert FromBE(s) / 256 == FromBE(s[..|s| - 1]);
    }
  }

  lemma SignedRoundTrip(n: nat, i: int)
    requires n > 0 && FitsSigned(n, i)
    ensures ToUnsigned(n, i) < Pow256(n)
    ensures ToSigned(n, ToUnsigned(n, i)) == i
  {
    assert Pow256(n) == 256 * Pow256(n - 1);
  }

  /** A big-endian number read in two parts. */
  lemma {:induction false} FromBEConcat(a: bytes, b: bytes)
    ensures FromBE(a + b) == FromBE(a) * Pow256(|b|) + FromBE(b)
  {
    if b == [] {
      assert a + b == a;
    } else {
      var k := |b| - 1;
      FromBEConcat(a, b[..k]);
      assert (a + b)[..|a + b| - 1] == a + b[..k];
      assert FromBE(a) * (256 * Pow256(k)) == 256 * (FromBE(a) * Pow256(k));
    }
  }

  lemma {:induction false} FromLEConcat(a: bytes, b: bytes)
    ensures FromLE(a + b) == FromLE(a) + Pow256(|a|) * FromLE(b)
  {
    if a == [] {
      assert a + b == b;
    } else {
      FromLEConcat(a[1..], b);
      assert (a + b)[1..] == a[1..] + b;
      assert 256 * (Pow256(|a| - 1) * FromLE(b)) == (256 * Pow256(|a| - 1)) * FromLE(b);
    }
  }

  /** FixedLengthInt: little endian, over a 64-bit accumulator that drops what is shifted past bit 63. */
  method FixedLengthInt(buf: bytes) returns (num: nat)
    ensures num == FromLE(if |buf| <= 8 then buf else buf[..8])
  {
    num := 0;
    var shift: nat := 1;
    var i := 0;
    while i < |buf|
      invariant 0 <= i <= |buf|
      invariant shift == Pow256(i)
      invariant num == FromLE(buf[..if i <= 8 then i else 8])
    {
      if i < 8 {
        LittleEndianTake(buf, i);
        num := num + buf[i] * shift;
      }
      shift := 256 * shift;
      i := i + 1;
    }
    assert |buf| <= 8 ==> buf[..|buf|] == buf;
  }

  lemma LittleEndianTake(buf: bytes, i: nat)
    requires i < |buf|
    ensures FromLE(buf[..i + 1]) == FromLE(buf[..i]) + buf[i] * Pow256(i)
  {
    FromLEConcat(buf[..i], [buf[i]]);
    assert buf[..i + 1] == buf[..i] + [buf[i]];
    assert FromLE([buf[i]]) == buf[i] + 256 * FromLE([]);
  }

  lemma BigEndianTake(buf: bytes, i: nat)
    requires i < |buf|
    ensures FromBE(buf[..i + 1]) == 256 * FromBE(buf[..i]) + buf[i]
  {
    assert buf[..i + 1][..i] == buf[..i];
  }

  lemma BigEndianWeight(a: nat, b: nat, p: nat)
    ensures a * (256 * p) + b * p == (256 * a + b) * p
  {
  }

  lemma BigEndianStep(buf: bytes, i: nat, p: nat)
    requires i < |buf|
    ensures FromBE(buf[..i]) * (256 * p) + buf[i] * p == FromBE(buf[..i + 1]) * p
  {
    BigEndianTake(buf, i);
    BigEndianWeight(FromBE(buf[..i]), buf[i], p);
  }

  /** BFixedLengthInt: big endian, over the same accumulator. */
  method BFixedLengthInt(buf: bytes) returns (num: nat)
    ensures num == FromBE(if |buf| <= 8 then buf else buf[|buf| - 8..])
  {
    num := 0;
    var i := 0;
    ghost var lost: nat := if |buf| <= 8 then 0 else |buf| - 8;
    ghost var kept := buf[lost..];
    while i < |buf|
      invariant 0 <= i <= |buf|
      invariant num == if i <= lost then 0 else FromBE(kept[..i - lost]) * Pow256(|buf| - i)
    {
      if |buf| - i <= 8 {
        BigEndianStep(kept, i - lost, Pow256(|buf| - i - 1));
        num := num + buf[i] * Pow256(|buf| - i - 1);
      }
      i := i + 1;
    }
    assert kept[..|kept|] == kept;
  }

  // ----- length-encoded integers and strings -----

  datatype LenEnc = LenEnc(num: nat, isNull: bool, n: nat)

  /** PutLengthEncodedInt. */
  function PutLengthEncodedInt(n: nat): (s: bytes)
    requires n < Pow256(8)
  {
    if n <= 250 then [n]
    else if n <= 0xffff then [0xfc] + LE(2, n)
    else if n <= 0xffffff then [0xfd] + LE(3, n)
    else [0xfe] + LE(8, n)
  }

  /** LengthEncodedInt; None is the index-out-of-range panic on a truncated value. */
  function LengthEncodedInt(b: bytes): (r: Option<LenEnc>)
    ensures r.Some? ==> r.value.n <= |b|
  {
    if |b| == 0 then Some(LenEnc(0, true, 0))
    else match b[0]
      case 0xfb => Some(LenEnc(0, true, 1))
      case 0xfc => if |b| < 3 then None else Some(LenEnc(FromLE(b[1..3]), false, 3))
      case 0xfd => if |b| < 4 then None else Some(LenEnc(FromLE(b[1..4]), false, 4))
      case 0xfe => if |b| < 9 then None else Some(LenEnc(FromLE(b[1..9]), false, 9))
      case _ => Some(LenEnc(b[0], false, 1))
  }

  lemma LengthEncodedIntRoundTrip(n: nat, rest: bytes)
    requires n < Pow256(8)
    ensures LengthEncodedInt(PutLengthEncodedInt(n) + rest) == Some(LenEnc(n, false, |PutLengthEncodedInt(n)|))
  {
    var b := PutLengthEncodedInt(n) + rest;
    assert Pow256(2) == 0x1_0000 && Pow256(3) == 0x100_0000;
    if 250 < n <= 0xffff {
      LittleEndianRoundTrip(2, n);
      assert b[1..3] == LE(2, n);
    } else if 0xffff < n <= 0xffffff {
      LittleEndianRoundTrip(3, n);
      assert b[1..4] == LE(3, n);
    } else if 0xffffff < n {
      LittleEndianRoundTrip(8, n);
      assert b[1..9] == LE(8, n);
    }
  }

  datatype LenEncString =
    | Text(v: bytes, isNull: bool, n: nat)
    | EndOfInput(n: nat)  // io.EOF

  /** LengthEncodedString; None is the panic of LengthEncodedInt. */
  function LengthEncodedString(b: bytes): (r: Option<LenEncString>)
  {
    match LengthEncodedInt(b)
    case None => None
    case Some(LenEnc(num, isNull, n)) =>
      if num < 1 then Some(Text([], isNull, n))
      else if |b| >= n + num then Some(Text(b[n..n + num], false, n + num))
      else Some(EndOfInput(n + num))
  }

  lemma LengthEncodedStringRoundTrip(s: bytes, rest: bytes)
    requires |s| < Pow256(8)
    ensures LengthEncodedString(PutLengthEncodedInt(|s|) + s + rest)
         == Some(Text(s, false, |PutLengthEncodedInt(|s|)| + |s|))
  {
    var h := PutLengthEncodedInt(|s|);
    LengthEncodedIntRoundTrip(|s|, s + rest);
    assert h + s + rest == h + (s + rest);
    assert (h + s + rest)[|h|..|h| + |s|] == s;
  }
}
