/**
 TIME2 columns (decodeTime2 and timeFormat in replication/row_event.go): three
 bytes of hour, minute and second biased by 0x800000, then a fraction whose
 order is reversed for negative times so that disk bytes sort as times do.
 Times are kept as fields; their rendering as text is not modelled. The source
 calls the bias of the integer part TIMEF_INT_OFS and that of the whole packed
 number TIMEF_OFS.
 */
module Time2Column {
  import opened Bytes
  import opened Lists

  datatype Time = Time(negative: bool, hour: int, minute: int, second: int, micros: int)

  /** What one stored fraction unit is worth, in microseconds. */
  function Unit(dec: nat): (u: nat)
    requires dec <= 6
  {
    if dec == 0 then 100_0000 else if dec <= 2 then 1_0000 else if dec <= 4 then 100 else 1
  }

  /** The times a TIME(dec) column can hold; negative zero is not one of them. */
  predicate Representable(t: Time, dec: nat) {
    dec <= 6 && InRange(t) && t.micros % Unit(dec) == 0
  }

  function Hms(t: Time): (i: int) { t.hour * 4096 + t.minute * 64 + t.second }

  predicate InRange(t: Time) {
    && 0 <= t.hour < 1024 && 0 <= t.minute < 64 && 0 <= t.second < 64 && 0 <= t.micros < 100_0000
    && (t.negative ==> t.hour + t.minute + t.second + t.micros > 0)
  }

  predicate Borrows(t: Time) { t.negative && t.micros > 0 }

  /** The stored integer part: below zero with a fraction it is one lower. */
  function IntPart(t: Time): (i: int) {
    if !t.negative then Hms(t) else if Borrows(t) then -Hms(t) - 1 else -Hms(t)
  }

  /** The one-byte fraction: below zero it counts down from the top of its range. */
  function Frac1(t: Time): (f: int) {
    if Borrows(t) then 0x100 - t.micros / 1_0000 else t.micros / 1_0000
  }

  /** The two-byte fraction. */
  function Frac2(t: Time): (f: int) {
    if Borrows(t) then 0x1_0000 - t.micros / 100 else t.micros / 100
  }

  /** The packed number hour:minute:second.fraction with its sign; the fraction takes 24 bits. */
  function Instant(t: Time): (i: int) {
    var packed := Hms(t) * 0x100_0000 + t.micros;
    if t.negative then -packed else packed
  }

  /** The disk form. */
  function Encode(t: Time, dec: nat): (b: bytes)
    requires Representable(t, dec)
    ensures |b| == 3 + (dec + 1) / 2
  {
    if dec >= 5 then BE(6, Instant(t) + 0x8000_0000_0000)
    else if dec == 0 then BE(3, IntPart(t) + 0x80_0000)
    else if dec <= 2 then BE(3, IntPart(t) + 0x80_0000) + BE(1, Frac1(t))
    else BE(3, IntPart(t) + 0x80_0000) + BE(2, Frac2(t))
  }

  /** timeFormat, up to the printing: sign and magnitude, then bit fields. */
  function Fields(tmp: int): (t: Time)
  {
    var mag := if tmp < 0 then -tmp else tmp;
    var hms := mag / 0x100_0000;
    Time(tmp < 0, hms / 4096 % 1024, hms / 64 % 64, hms % 64, mag % 0x100_0000)
  }

  /** The shared tail of the cases with one or two fraction bytes. */
  function Unreverse(intPart: int, frac: int, range: int, unit: int): (t: Time)
  {
    var shift := intPart < 0 && frac != 0;
    var i := if shift then intPart + 1 else intPart;
    var f := if shift then frac - range else frac;
    if i == 0 && f == 0 then Time(false, 0, 0, 0, 0) else Fields(i * 0x100_0000 + f * unit)
  }

  /** decodeTime2; None is the panic on truncated data. */
  function Decode(data: bytes, dec: nat): (r: Option<(Time, nat)>)
  {
    var n := 3 + (dec + 1) / 2;
    if |data| < (if dec <= 6 then n else 3) then None
    else if dec == 5 || dec == 6 then Some((Fields(FromBE(data[..6]) - 0x8000_0000_0000), n))
    else
      var intPart := FromBE(data[..3]) - 0x80_0000;
      if dec == 1 || dec == 2 then Some((Unreverse(intPart, data[3], 0x100, 1_0000), n))
      else if dec == 3 || dec == 4 then Some((Unreverse(intPart, FromBE(data[3..5]), 0x1_0000, 100), n))
      else Some((Unreverse(intPart, 0, 1, 0), n))
  }

  lemma FieldsOfPacked(t: Time)
    requires InRange(t)
    ensures Fields(Instant(t)) == t
  {
    var packed := Hms(t) * 0x100_0000 + t.micros;
    assert packed / 0x100_0000 == Hms(t) && packed % 0x100_0000 == t.micros;
    assert Hms(t) / 4096 == t.hour && Hms(t) / 64 == t.hour * 64 + t.minute && Hms(t) % 64 == t.second;
  }

  /** Undoing the reversed order: any split of the instant into integer part and fraction will do. */
  lemma UnreverseSplit(t: Time, intPart: int, frac: int, range: int, unit: int)
    requires InRange(t)
    requires var shift := intPart < 0 && frac != 0;
      var i, f := if shift then intPart + 1 else intPart, if shift then frac - range else frac;
      i * 0x100_0000 + f * unit == Instant(t) && (i == 0 && f == 0 ==> Instant(t) == 0)
    ensures Unreverse(intPart, frac, range, unit) == t
  {
    FieldsOfPacked(t);
  }

  lemma UnreverseNothing(t: Time)
    requires InRange(t) && t.micros == 0
    ensures Unreverse(IntPart(t), 0, 1, 0) == t
  {
    assert 0 * 0 == 0;
    UnreverseSplit(t, IntPart(t), 0, 1, 0);
  }

  lemma UnreverseOneByte(t: Time)
    requires InRange(t) && t.micros % 1_0000 == 0
    ensures Unreverse(IntPart(t), Frac1(t), 0x100, 1_0000) == t
  {
    UnreverseSplit(t, IntPart(t), Frac1(t), 0x100, 1_0000);
  }

  lemma UnreverseTwoBytes(t: Time)
    requires InRange(t) && t.micros % 100 == 0
    ensures Unreverse(IntPart(t), Frac2(t), 0x1_0000, 100) == t
  {
    UnreverseSplit(t, IntPart(t), Frac2(t), 0x1_0000, 100);
  }

  /** The parts fit the bytes that hold them. */
  lemma PartsFit(t: Time)
    requires InRange(t)
    ensures 0 <= IntPart(t) + 0x80_0000 < Pow256(3)
    ensures 0 <= Instant(t) + 0x8000_0000_0000 < Pow256(6)
    ensures t.micros % 1_0000 == 0 ==> 0 <= Frac1(t) < Pow256(1)
    ensures t.micros % 100 == 0 ==> 0 <= Frac2(t) < Pow256(2)
  {
    assert Pow256(1) == 0x100 && Pow256(2) == 0x1_0000 && Pow256(3) == 0x100_0000 && Pow256(6) == 0x1_0000_0000_0000;
    assert Hms(t) < 1024 * 4096;
  }

  /** Every representable time comes back with its sign, hour, minute, second and fraction. */
  lemma DecodeEncode(t: Time, dec: nat, rest: bytes)
    requires Representable(t, dec)
    ensures Decode(Encode(t, dec) + rest, dec) == Some((t, |Encode(t, dec)|))
  {
    var data := Encode(t, dec) + rest;
    PartsFit(t);
    if dec >= 5 {
      assert data[..6] == Encode(t, dec);
      DecodeWhole(t, dec, data);
    } else {
      var whole := BE(3, IntPart(t) + 0x80_0000);
      assert data[..3] == whole;
      if dec == 0 {
        DecodeNoFraction(t, data);
      } else if dec <= 2 {
        OneByte(Frac1(t));
        assert data[3] == (whole + [Frac1(t)] + rest)[3];
        DecodeOneByte(t, dec, data);
      } else {
        Middle(whole, BE(2, Frac2(t)), rest);
        DecodeTwoBytes(t, dec, data);
      }
    }
  }

  lemma DecodeWhole(t: Time, dec: nat, data: bytes)
    requires Representable(t, dec) && dec >= 5 && |data| >= 6
    requires 0 <= Instant(t) + 0x8000_0000_0000 < Pow256(6) && data[..6] == BE(6, Instant(t) + 0x8000_0000_0000)
    ensures Decode(data, dec) == Some((t, 6))
  {
    BigEndianRoundTrip(6, Instant(t) + 0x8000_0000_0000);
    DecodeSixBytes(data, dec, Instant(t));
    FieldsOfPacked(t);
  }

  lemma DecodeSixBytes(data: bytes, dec: nat, v: int)
    requires 5 <= dec <= 6 && |data| >= 6 && FromBE(data[..6]) == v + 0x8000_0000_0000
    ensures Decode(data, dec) == Some((Fields(v), 6))
  {
  }

  lemma DecodeNoFraction(t: Time, data: bytes)
    requires Representable(t, 0) && |data| >= 3
    requires 0 <= IntPart(t) + 0x80_0000 < Pow256(3) && data[..3] == BE(3, IntPart(t) + 0x80_0000)
    ensures Decode(data, 0) == Some((t, 3))
  {
    BigEndianRoundTrip(3, IntPart(t) + 0x80_0000);
    UnreverseNothing(t);
    DecodeParts(data, 0, IntPart(t), 0);
  }

  lemma DecodeOneByte(t: Time, dec: nat, data: bytes)
    requires Representable(t, dec) && 1 <= dec <= 2 && |data| >= 4
    requires 0 <= IntPart(t) + 0x80_0000 < Pow256(3) && data[..3] == BE(3, IntPart(t) + 0x80_0000)
    requires data[3] == Frac1(t)
    ensures Decode(data, dec) == Some((t, 4))
  {
    BigEndianRoundTrip(3, IntPart(t) + 0x80_0000);
    UnreverseOneByte(t);
    DecodeParts(data, dec, IntPart(t), Frac1(t));
  }

  lemma DecodeTwoBytes(t: Time, dec: nat, data: bytes)
    requires Representable(t, dec) && 3 <= dec <= 4 && |data| >= 5
    requires 0 <= IntPart(t) + 0x80_0000 < Pow256(3) && data[..3] == BE(3, IntPart(t) + 0x80_0000)
    requires 0 <= Frac2(t) < Pow256(2) && data[3..5] == BE(2, Frac2(t))
    ensures Decode(data, dec) == Some((t, 5))
  {
    BigEndianRoundTrip(3, IntPart(t) + 0x80_0000);
    BigEndianRoundTrip(2, Frac2(t));
    UnreverseTwoBytes(t);
    DecodeParts(data, dec, IntPart(t), Frac2(t));
  }

  /** What the decoder reads below five digits, by parts. */
  lemma DecodeParts(data: bytes, dec: nat, intPart: int, frac: int)
    requires dec <= 4 && |data| >= 3 + (dec + 1) / 2
    requires FromBE(data[..3]) == intPart + 0x80_0000
    requires 1 <= dec <= 2 ==> data[3] == frac
    requires 3 <= dec <= 4 ==> FromBE(data[3..5]) == frac
    ensures dec == 0 ==> Decode(data, dec) == Some((Unreverse(intPart, 0, 1, 0), 3))
    ensures 1 <= dec <= 2 ==> Decode(data, dec) == Some((Unreverse(intPart, frac, 0x100, 1_0000), 4))
    ensures 3 <= dec <= 4 ==> Decode(data, dec) == Some((Unreverse(intPart, frac, 0x1_0000, 100), 5))
  {
  }

  lemma OneByte(v: nat)
    requires v < 256
    ensures BE(1, v) == [v]
  {
    assert BE(1, v) == BE(0, v / 256) + [v % 256];
  }

  /** The disk bytes read as one number. */
  lemma DiskNumber(t: Time, dec: nat)
    requires Representable(t, dec)
    ensures FromBE(Encode(t, dec)) ==
      if dec >= 5 then Instant(t) + 0x8000_0000_0000
      else if dec == 0 then IntPart(t) + 0x80_0000
      else if dec <= 2 then (IntPart(t) + 0x80_0000) * 0x100 + Frac1(t)
      else (IntPart(t) + 0x80_0000) * 0x1_0000 + Frac2(t)
  {
    assert Pow256(1) == 0x100 && Pow256(2) == 0x1_0000;
    PartsFit(t);
    BigEndianRoundTrip(6, Instant(t) + 0x8000_0000_0000);
    BigEndianRoundTrip(3, IntPart(t) + 0x80_0000);
    if 1 <= dec <= 2 {
      BigEndianRoundTrip(1, Frac1(t));
      FromBEConcat(BE(3, IntPart(t) + 0x80_0000), BE(1, Frac1(t)));
    } else if 3 <= dec <= 4 {
      BigEndianRoundTrip(2, Frac2(t));
      FromBEConcat(BE(3, IntPart(t) + 0x80_0000), BE(2, Frac2(t)));
    }
  }

  lemma MagnitudeOrder(a: int, p: int, b: int, q: int)
    requires 0 <= p && 0 <= q
    ensures p < 100 && q < 100 ==>
      (a * 0x100 + p < b * 0x100 + q <==> a * 0x100_0000 + p * 1_0000 < b * 0x100_0000 + q * 1_0000)
    ensures p < 1_0000 && q < 1_0000 ==>
      (a * 0x1_0000 + p < b * 0x1_0000 + q <==> a * 0x100_0000 + p * 100 < b * 0x100_0000 + q * 100)
  {
    if a < b {
    } else if a == b {
    } else {
    }
  }

  /** Integer part and fraction together are the signed magnitude counted in fraction units. */
  lemma StoredNumber(t: Time)
    requires InRange(t)
    ensures t.micros % 1_0000 == 0 ==> IntPart(t) * 0x100 + Frac1(t) == Signed(t, Hms(t) * 0x100 + t.micros / 1_0000)
    ensures t.micros % 100 == 0 ==> IntPart(t) * 0x1_0000 + Frac2(t) == Signed(t, Hms(t) * 0x1_0000 + t.micros / 100)
  {
  }

  function Signed(t: Time, magnitude: int): (i: int) { if t.negative then -magnitude else magnitude }

  lemma OrderInOneByte(s: Time, t: Time)
    requires InRange(s) && InRange(t) && s.micros % 1_0000 == t.micros % 1_0000 == 0
    ensures IntPart(s) * 0x100 + Frac1(s) < IntPart(t) * 0x100 + Frac1(t) <==> Instant(s) < Instant(t)
  {
    var p, q := s.micros / 1_0000, t.micros / 1_0000;
    StoredNumber(s);
    StoredNumber(t);
    assert s.micros == p * 1_0000 && t.micros == q * 1_0000 && p < 100 && q < 100;
    MagnitudeOrder(Hms(s), p, Hms(t), q);
    MagnitudeOrder(Hms(t), q, Hms(s), p);
  }

  lemma OrderInTwoBytes(s: Time, t: Time)
    requires InRange(s) && InRange(t) && s.micros % 100 == t.micros % 100 == 0
    ensures IntPart(s) * 0x1_0000 + Frac2(s) < IntPart(t) * 0x1_0000 + Frac2(t) <==> Instant(s) < Instant(t)
  {
    var p, q := s.micros / 100, t.micros / 100;
    StoredNumber(s);
    StoredNumber(t);
    assert s.micros == p * 100 && t.micros == q * 100 && p < 1_0000 && q < 1_0000;
    MagnitudeOrder(Hms(s), p, Hms(t), q);
    MagnitudeOrder(Hms(t), q, Hms(s), p);
  }

  /** Later times have larger disk bytes at every precision: what the bias and the reversed fractions are for. */
  lemma DiskOrder(s: Time, t: Time, dec: nat)
    requires Representable(s, dec) && Representable(t, dec)
    ensures FromBE(Encode(s, dec)) < FromBE(Encode(t, dec)) <==> Instant(s) < Instant(t)
  {
    DiskNumber(s, dec);
    DiskNumber(t, dec);
    if 1 <= dec <= 2 {
      OrderInOneByte(s, t);
    } else if 3 <= dec <= 4 {
      OrderInTwoBytes(s, t);
    }
  }

  /**
   Which bytes are read as a time, and in which ranges the fields of any of them are. Past a
   precision of six there is no fraction to read, but its bytes are passed over.
   */
  lemma DecodesExactly(data: bytes, dec: nat)
    ensures Decode(data, dec).Some? <==> |data| >= 3 + if dec <= 6 then (dec + 1) / 2 else 0
    ensures Decode(data, dec).Some? ==> var t := Decode(data, dec).value.0;
      0 <= t.hour < 1024 && 0 <= t.minute < 64 && 0 <= t.second < 64 && 0 <= t.micros < 0x100_0000
    ensures dec > 6 && |data| >= 3 ==> Decode(data, dec) == Some((Decode(data, 0).value.0, 3 + (dec + 1) / 2))
  {
  }
}
