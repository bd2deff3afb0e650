/**
 Bitmaps: the column and NULL bitmaps of row events (replication/row_event.go)
 and the NULL bitmap of COM_STMT_EXECUTE (client/stmt.go, server/stmt.go).
 The bit operations follow the binary digits of a byte, lowest first.
 */
module Bits {
  import opened Bytes

  function Pow2(n: nat): (r: nat)
    ensures r >= 1
  {
    if n == 0 then 1 else 2 * Pow2(n - 1)
  }

  /** x >> n. */
  function Shr(x: nat, n: nat): (r: nat) {
    if n == 0 then x else Shr(x / 2, n - 1)
  }

  lemma {:induction false} ShrBound(x: nat, n: nat, k: nat)
    requires x < Pow2(k + n)
    ensures Shr(x, n) < Pow2(k)
  {
    if n > 0 { ShrBound(x / 2, n - 1, k); }
  }

  lemma {:induction false} ShrStep(x: nat, n: nat)
    ensures Shr(x, n + 1) == Shr(x, n) / 2
  {
    if n > 0 { ShrStep(x / 2, n - 1); }
  }

  lemma {:induction false} Pow2Bytes(n: nat)
    ensures Pow2(8 * n) == Pow256(n)
  {
    if n > 0 {
      var k := 8 * (n - 1);
      Pow2Bytes(n - 1);
      assert Pow2(k + 4) == 2 * Pow2(k + 3) == 4 * Pow2(k + 2) == 8 * Pow2(k + 1) == 16 * Pow2(k);
      assert Pow2(k + 8) == 2 * Pow2(k + 7) == 4 * Pow2(k + 6) == 8 * Pow2(k + 5) == 16 * Pow2(k + 4);
    }
  }

  lemma {:induction false} Pow2Monotone(a: nat, b: nat)
    requires a <= b
    ensures Pow2(a) <= Pow2(b)
  {
    if a < b { Pow2Monotone(a, b - 1); }
  }

  /** b & (1 << k) > 0. */
  predicate Bit(b: nat, k: nat) {
    if k == 0 then b % 2 == 1 else Bit(b / 2, k - 1)
  }

  /** b | (1 << k). */
  function OrBit(b: nat, k: nat): (r: nat) {
    if k == 0 then b / 2 * 2 + 1 else b % 2 + 2 * OrBit(b / 2, k - 1)
  }

  /** b & ((1 << r) - 1). */
  function LowBits(b: nat, r: nat): (m: nat)
    ensures m <= b
  {
    if r == 0 then 0 else b % 2 + 2 * LowBits(b / 2, r - 1)
  }

  function OnesCount(b: nat, width: nat): (n: nat) {
    if width == 0 then 0 else b % 2 + OnesCount(b / 2, width - 1)
  }

  /** bits.OnesCount8. */
  function OnesCount8(b: byte): (n: nat) { OnesCount(b, 8) }

  function BitmapByteSize(n: nat): (r: nat) { (n + 7) / 8 }

  /** isBitSet: bitmap[i>>3] & (1<<(i&7)) > 0. */
  predicate IsBitSet(bitmap: bytes, i: nat)
    requires i / 8 < |bitmap|
  {
    Bit(bitmap[i / 8], i % 8)
  }

  lemma {:induction false} OnesCountStep(b: nat, r: nat)
    ensures OnesCount(b, r + 1) == OnesCount(b, r) + if Bit(b, r) then 1 else 0
  {
    if r > 0 { OnesCountStep(b / 2, r - 1); }
  }

  lemma {:induction false} MaskedOnesCount(b: nat, r: nat, width: nat)
    requires r <= width
    ensures OnesCount(LowBits(b, r), width) == OnesCount(b, r)
    decreases width
  {
    if r > 0 {
      assert LowBits(b, r) / 2 == LowBits(b / 2, r - 1);
      MaskedOnesCount(b / 2, r - 1, width - 1);
    } else if width > 0 {
      MaskedOnesCount(0, 0, width - 1);
    }
  }

  /** How many of the columns lo..hi are marked present. */
  function PresentCount(bitmap: bytes, lo: nat, hi: nat): (n: nat)
    requires lo <= hi && BitmapByteSize(hi) <= |bitmap|
    ensures n <= hi - lo
    decreases hi - lo
  {
    if lo == hi then 0 else PresentCount(bitmap, lo, hi - 1) + if IsBitSet(bitmap, hi - 1) then 1 else 0
  }

  lemma {:induction false} PresentCountSplit(bitmap: bytes, lo: nat, mid: nat, hi: nat)
    requires lo <= mid <= hi && BitmapByteSize(hi) <= |bitmap|
    ensures PresentCount(bitmap, lo, hi) == PresentCount(bitmap, lo, mid) + PresentCount(bitmap, mid, hi)
    decreases hi - mid
  {
    if mid < hi { PresentCountSplit(bitmap, lo, mid, hi - 1); }
  }

  lemma {:induction false} ByteCount(bitmap: bytes, k: nat, r: nat)
    requires k < |bitmap| && r <= 8
    ensures OnesCount(bitmap[k], r) == PresentCount(bitmap, 8 * k, 8 * k + r)
  {
    if r > 0 {
      ByteCount(bitmap, k, r - 1);
      OnesCountStep(bitmap[k], r - 1);
      assert (8 * k + r - 1) / 8 == k && (8 * k + r - 1) % 8 == r - 1;
    }
  }

  lemma WholeByte(bitmap: bytes, col: nat, next: nat)
    requires col % 8 == 0 && next == col + 8 && BitmapByteSize(next) <= |bitmap|
    ensures PresentCount(bitmap, 0, next) == PresentCount(bitmap, 0, col) + OnesCount8(bitmap[col / 8])
  {
    ByteCount(bitmap, col / 8, 8);
    PresentCountSplit(bitmap, 0, col, next);
  }

  lemma LastByte(bitmap: bytes, col: nat, hi: nat)
    requires col % 8 == 0 && col < hi < col + 8 && BitmapByteSize(hi) <= |bitmap|
    ensures PresentCount(bitmap, 0, hi) == PresentCount(bitmap, 0, col) + OnesCount8(LowBits(bitmap[col / 8], hi - col))
  {
    var k, r := col / 8, hi - col;
    ByteCount(bitmap, k, r);
    MaskedOnesCount(bitmap[k], r, 8);
    PresentCountSplit(bitmap, 0, col, hi);
  }

  /** The column-count loop of decodeImage: whole bytes, then one masked byte. */
  method CountPresent(bitmap: bytes, columnCount: nat) returns (count: nat)
    requires BitmapByteSize(columnCount) <= |bitmap|
    ensures count == PresentCount(bitmap, 0, columnCount)
  {
    count := 0;
    var col := 0;
    while col + 8 <= columnCount
      invariant 0 <= col <= columnCount && col % 8 == 0
      invariant count == PresentCount(bitmap, 0, col)
    {
      WholeByte(bitmap, col, col + 8);
      count := count + OnesCount8(bitmap[col / 8]);
      col := col + 8;
    }
    if col < columnCount {
      LastByte(bitmap, col, columnCount);
      count := count + OnesCount8(LowBits(bitmap[col / 8], columnCount - col));
    }
  }

  /** Flags i, i+1, ... packed lowest bit first into a number of at most `width` bits. */
  function PackFrom(bs: seq<bool>, i: nat, width: nat): (n: nat)
    ensures n < Pow2(width)
    decreases width
  {
    if width == 0 || i >= |bs| then 0
    else (if bs[i] then 1 else 0) + 2 * PackFrom(bs, i + 1, width - 1)
  }

  /** A bitmap whose bit i is flag i. */
  function PackBits(bs: seq<bool>): (bitmap: bytes)
    ensures |bitmap| == BitmapByteSize(|bs|)
  {
    assert Pow2(8) == 256;
    seq(BitmapByteSize(|bs|), k requires 0 <= k => PackFrom(bs, 8 * k, 8))
  }

  lemma {:induction false} PackFromBit(bs: seq<bool>, i: nat, width: nat, j: nat)
    requires j < width && i + j < |bs|
    ensures Bit(PackFrom(bs, i, width), j) == bs[i + j]
    decreases width
  {
    if j > 0 { PackFromBit(bs, i + 1, width - 1, j - 1); }
  }

  lemma PackedBit(bs: seq<bool>, i: nat)
    requires i < |bs|
    ensures IsBitSet(PackBits(bs), i) == bs[i]
  {
    PackFromBit(bs, 8 * (i / 8), 8, i % 8);
  }

  lemma {:induction false} OrBitBound(b: nat, k: nat, width: nat)
    requires b < Pow2(width) && k < width
    ensures OrBit(b, k) < Pow2(width)
    decreases width
  {
    var p := Pow2(width - 1);
    assert b / 2 < p;
    if k > 0 { OrBitBound(b / 2, k - 1, width - 1); }
  }

  lemma {:induction false} OrBitFlag(b: nat, k: nat, j: nat)
    ensures Bit(OrBit(b, k), j) == (j == k || Bit(b, j))
    decreases k
  {
    if k > 0 && j > 0 {
      assert OrBit(b, k) / 2 == OrBit(b / 2, k - 1);
      OrBitFlag(b / 2, k - 1, j - 1);
    } else if k == 0 && j > 0 {
      assert OrBit(b, 0) / 2 == b / 2;
    }
  }

  /** bitmap[i/8] |= 1 << (i%8). */
  function SetBit(bitmap: bytes, i: nat): (r: bytes)
    requires i / 8 < |bitmap|
    ensures |r| == |bitmap|
    ensures forall j: nat :: j / 8 < |bitmap| ==> IsBitSet(r, j) == (i == j || IsBitSet(bitmap, j))
  {
    assert Pow2(8) == 256;
    OrBitBound(bitmap[i / 8], i % 8, 8);
    var r := bitmap[i / 8 := OrBit(bitmap[i / 8], i % 8)];
    assert forall j: nat | j / 8 < |bitmap| :: IsBitSet(r, j) == (i == j || IsBitSet(bitmap, j)) by {
      forall j: nat | j / 8 < |bitmap| ensures IsBitSet(r, j) == (i == j || IsBitSet(bitmap, j)) {
        OrBitFlag(bitmap[i / 8], i % 8, j % 8);
      }
    }
    r
  }
}
