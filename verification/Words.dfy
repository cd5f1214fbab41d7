/** Machine words as natural numbers: powers of two, bitwise AND, little-endian packing of
    bytes, the byte-wise halving of a packed word, and the count of trailing zero bits. */
module Words {

  const WORD: nat := 0x1_0000_0000_0000_0000
  const BYTES_PER_WORD: nat := 8
  const LOW_SEVEN_BITS: nat := 0x7f7f7f7f7f7f7f7f

  type Word = x: nat | x < WORD
  type Byte = x: nat | x < 256

  function Pow2(n: nat): (r: nat)
    ensures r >= 1
  {
    if n == 0 then 1 else 2 * Pow2(n - 1)
  }

  lemma {:induction false} Pow2Sum(a: nat, b: nat)
    ensures Pow2(a + b) == Pow2(a) * Pow2(b)
  {
    if a != 0 {
      Pow2Sum(a - 1, b);
      assert 2 * (Pow2(a - 1) * Pow2(b)) == (2 * Pow2(a - 1)) * Pow2(b);
    }
  }

  lemma {:induction false} Pow2Monotone(a: nat, b: nat)
    requires a <= b
    ensures Pow2(a) <= Pow2(b)
    decreases b
  {
    if a < b {
      Pow2Monotone(a, b - 1);
    }
  }

  ghost predicate IsPow2(x: nat) {
    exists n: nat :: x == Pow2(n)
  }

  lemma DoublePow2(x: nat)
    requires IsPow2(x)
    ensures IsPow2(2 * x)
  {
    var n: nat :| x == Pow2(n);
    assert 2 * x == Pow2(n + 1);
  }

  /** Bitwise AND. */
  function And(x: nat, y: nat): (r: nat)
  {
    if x == 0 || y == 0 then 0
    else (if x % 2 == 1 && y % 2 == 1 then 1 else 0) + 2 * And(x / 2, y / 2)
  }

  lemma AndUnfold(x: nat, y: nat)
    ensures And(x, y) == (if x % 2 == 1 && y % 2 == 1 then 1 else 0) + 2 * And(x / 2, y / 2)
  {
  }

  lemma {:induction false} AndAllOnes(x: nat, n: nat)
    requires x < Pow2(n)
    ensures And(x, Pow2(n) - 1) == x
  {
    if n != 0 {
      AndAllOnes(x / 2, n - 1);
      assert (Pow2(n) - 1) / 2 == Pow2(n - 1) - 1;
      AndUnfold(x, Pow2(n) - 1);
    }
  }

  /** Left shift. */
  function Shl(x: nat, n: nat): (r: nat)
  {
    if n == 0 then x else 2 * Shl(x, n - 1)
  }

  /** Right shift. */
  function Shr(x: nat, n: nat): (r: nat)
  {
    if n == 0 then x else Shr(x, n - 1) / 2
  }

  lemma {:induction false} ShrBelow(x: nat, n: nat, bound: nat)
    requires x < Pow2(n) * bound
    ensures Shr(x, n) < bound
  {
    if n != 0 {
      assert Pow2(n) * bound == Pow2(n - 1) * (2 * bound);
      ShrBelow(x, n - 1, 2 * bound);
    }
  }

  /** Product. */
  function Times(x: nat, y: nat): (r: nat)
  {
    if x == 0 then 0 else Times(x - 1, y) + y
  }

  lemma {:induction false} TimesIsProduct(x: nat, y: nat)
    ensures Times(x, y) == x * y
  {
    if x != 0 {
      TimesIsProduct(x - 1, y);
    }
  }

  /** Remainder. */
  function Mod(x: nat, d: nat): (r: nat)
    requires d > 0
    ensures r < d
    decreases x
  {
    if x < d then x else Mod(x - d, d)
  }

  lemma {:induction false} ModIsRemainder(x: nat, d: nat)
    requires d > 0
    ensures Mod(x, d) == x % d
    decreases x
  {
    if x >= d {
      ModIsRemainder(x - d, d);
      assert x == d * (x / d) + x % d;
      RemainderUnique(x - d, d, x / d - 1, x % d);
    }
  }

  lemma RemainderUnique(x: int, d: nat, q: int, r: nat)
    requires r < d
    requires x == d * q + r
    ensures x % d == r
  {
    var e := x / d - q;
    assert d * (x / d) == d * q + d * e;
    assert e > 0 ==> d * e >= d;
    assert e < 0 ==> d * e <= 0 - d;
  }

  lemma {:induction false} ShlIsProduct(x: nat, n: nat)
    ensures Shl(x, n) == Pow2(n) * x
  {
    if n != 0 {
      ShlIsProduct(x, n - 1);
      assert Pow2(n) * x == 2 * (Pow2(n - 1) * x);
    }
  }

  lemma AndHalves(x: nat, u: nat, y: nat, u': nat, v: nat)
    requires And(x / 2 + u, y / 2 + u') == And(x / 2, y / 2) + v
    ensures And(x + 2 * u, y + 2 * u') == And(x, y) + 2 * v
  {
    assert (x + 2 * u) / 2 == x / 2 + u && (y + 2 * u') / 2 == y / 2 + u';
    assert (x + 2 * u) % 2 == x % 2 && (y + 2 * u') % 2 == y % 2;
    AndUnfold(x + 2 * u, y + 2 * u');
    AndUnfold(x, y);
  }

  /** AND works separately on the low `n` bits and on the rest. */
  lemma {:induction false} AndLowBits(x: nat, hi: nat, y: nat, hi': nat, n: nat)
    requires x < Pow2(n) && y < Pow2(n)
    ensures And(x + Shl(hi, n), y + Shl(hi', n)) == And(x, y) + Shl(And(hi, hi'), n)
    decreases n
  {
    if n == 0 {
      assert x == 0 && y == 0;
    } else {
      AndLowBits(x / 2, hi, y / 2, hi', n - 1);
      var u, u', v := Shl(hi, n - 1), Shl(hi', n - 1), Shl(And(hi, hi'), n - 1);
      AndHalves(x, u, y, u', v);
    }
  }

  lemma {:induction false} Divided(x: nat, p: nat) returns (low: nat, high: nat)
    requires p > 0
    ensures low == x % p && low < p && x == low + p * high
  {
    low, high := x % p, x / p;
  }

  /** Masking with `2^n - 1` is the remainder modulo `2^n`. */
  lemma {:induction false} AndMask(x: nat, n: nat)
    ensures And(x, Pow2(n) - 1) == x % Pow2(n)
  {
    var p := Pow2(n);
    var low, high := Divided(x, p);
    ShlIsProduct(high, n);
    ShlIsProduct(0, n);
    AndLowBits(low, high, p - 1, 0, n);
    AndAllOnes(low, n);
    assert And(high, 0) == 0;
  }

  lemma AndIsMask(x: nat, size: nat)
    requires IsPow2(size)
    ensures And(x, size - 1) == Mod(x, size)
  {
    var n: nat :| size == Pow2(n);
    AndMask(x, n);
    ModIsRemainder(x, size);
  }

  /** The value of a little-endian run of bytes. */
  function Pack(bytes: seq<Byte>): (r: nat)
  {
    if bytes == [] then 0 else bytes[0] + 256 * Pack(bytes[1..])
  }

  /** Byte `j` of a packed word. */
  function ByteAt(w: nat, j: nat): (r: Byte)
  {
    if j == 0 then w % 256 else ByteAt(w / 256, j - 1)
  }

  lemma {:induction false} PackedByte(bytes: seq<Byte>, j: nat)
    requires j < |bytes|
    ensures ByteAt(Pack(bytes), j) == bytes[j]
  {
    var w := Pack(bytes);
    assert w / 256 == Pack(bytes[1..]) && w % 256 == bytes[0];
    if j != 0 {
      PackedByte(bytes[1..], j - 1);
    }
  }

  /** Masks made of `n` bytes, each with its low seven bits set. */
  function SevenBitMask(n: nat): (r: nat)
  {
    if n == 0 then 0 else 0x7f + 256 * SevenBitMask(n - 1)
  }

  lemma EightByteMask()
    ensures SevenBitMask(BYTES_PER_WORD) == LOW_SEVEN_BITS
  {
    assert SevenBitMask(4) == 0x7f7f7f7f;
    assert SevenBitMask(8) == 0x7f7f7f7f + 0x1_0000_0000 * SevenBitMask(4);
  }

  function Halved(bytes: seq<Byte>): (r: seq<Byte>)
    ensures |r| == |bytes|
    ensures forall i :: 0 <= i < |bytes| ==> r[i] == bytes[i] / 2
  {
    seq(|bytes|, i requires 0 <= i < |bytes| => bytes[i] / 2)
  }

  lemma ShlByte(x: nat)
    ensures Shl(x, 8) == 256 * x
  {
    ShlIsProduct(x, 8);
    assert Pow2(8) == 256;
  }

  lemma MaskSevenBits(x: nat, low: nat, top: nat)
    requires low < 128 && x == low + 128 * top
    ensures And(x, 0x7f) == low
  {
    var p := Pow2(7);
    assert p == 128;
    AndMask(x, 7);
    assert x % 128 == low;
  }

  /** Bytes are masked separately. */
  lemma {:induction false} AndByte(x: nat, hi: nat, y: nat, hi': nat)
    requires x < 256 && y < 256
    ensures And(x + 256 * hi, y + 256 * hi') == And(x, y) + 256 * And(hi, hi')
  {
    assert Pow2(8) == 256 by {
      assert Pow2(4) == 16;
    }
    AndLowBits(x, hi, y, hi', 8);
    ShlByte(hi);
    ShlByte(hi');
    ShlByte(And(hi, hi'));
  }

  /** Shifting a packed word right by one and masking each byte's top bit halves every byte. */
  lemma {:induction false} HalvePacked(bytes: seq<Byte>)
    ensures And(Pack(bytes) / 2, SevenBitMask(|bytes|)) == Pack(Halved(bytes))
  {
    if bytes != [] {
      var b, rest := bytes[0], bytes[1..];
      var w := Pack(rest);
      HalvePacked(rest);
      assert Halved(bytes)[1..] == Halved(rest);
      var low := b / 2 + 128 * (w % 2);
      assert Pack(bytes) / 2 == low + 256 * (w / 2);
      AndByte(low, w / 2, 0x7f, SevenBitMask(|rest|));
      MaskSevenBits(low, b / 2, w % 2);
    }
  }

  /** Number of trailing zero bits. */
  function CountTrailingZeroes(x: nat): (r: nat)
    requires x > 0
  {
    if x % 2 == 1 then 0 else 1 + CountTrailingZeroes(x / 2)
  }

  lemma {:induction false} TrailingZeroesShift(x: nat, n: nat)
    requires x > 0
    ensures Shl(x, n) > 0
    ensures CountTrailingZeroes(Shl(x, n)) == n + CountTrailingZeroes(x)
  {
    if n != 0 {
      TrailingZeroesShift(x, n - 1);
    }
  }

  lemma {:induction false} TrailingZeroesLow(x: nat, n: nat, hi: nat)
    requires 0 < x < Pow2(n)
    ensures CountTrailingZeroes(x + Shl(hi, n)) == CountTrailingZeroes(x) < n
  {
    if x % 2 == 0 {
      assert (x + Shl(hi, n)) / 2 == x / 2 + Shl(hi, n - 1);
      TrailingZeroesLow(x / 2, n - 1, hi);
    }
  }

  /** In a non-zero packed word the trailing zero count divided by eight is the index of the first
      non-zero byte; a zero word has only zero bytes. */
  lemma {:induction false} FirstNonZeroByte(bytes: seq<Byte>)
    ensures Pack(bytes) == 0 <==> forall i :: 0 <= i < |bytes| ==> bytes[i] == 0
    ensures Pack(bytes) != 0 ==>
              var k := CountTrailingZeroes(Pack(bytes)) / 8;
              k < |bytes| && bytes[k] != 0 && forall i :: 0 <= i < k ==> bytes[i] == 0
  {
    if bytes != [] {
      var b, rest := bytes[0], bytes[1..];
      FirstNonZeroByte(rest);
      assert Pow2(8) == 256 by { assert Pow2(4) == 16; }
      ShlByte(Pack(rest));
      if b != 0 {
        TrailingZeroesLow(b, 8, Pack(rest));
      } else if Pack(rest) != 0 {
        TrailingZeroesShift(Pack(rest), 8);
        var k := CountTrailingZeroes(Pack(rest)) / 8;
        assert (8 + CountTrailingZeroes(Pack(rest))) / 8 == 1 + k;
        assert bytes[1 + k] == rest[k];
        assert forall i :: 1 <= i < 1 + k ==> bytes[i] == rest[i - 1];
      } else {
        assert forall i :: 1 <= i < |bytes| ==> bytes[i] == rest[i - 1];
      }
    }
  }
}
