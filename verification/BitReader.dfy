/** Reading a buffer a bit at a time, and a word at a time. */
module BitReader {
  import opened Common

  lemma {:induction false} Pow2Sum(a: nat, b: nat)
    ensures Pow2(a + b) == Pow2(a) * Pow2(b)
  {
    if b > 0 {
      Pow2Sum(a, b - 1);
    }
  }

  /** The bit at position p, the highest of each byte first; zero past the end. */
  function BitAt(vec: seq<byte>, p: nat): (b: nat)
    ensures b < 2
  {
    if p / 8 < |vec| then (vec[p / 8] / Pow2(7 - p % 8)) % 2 else 0
  }

  /** The number n bits from position p spell. */
  function Value(vec: seq<byte>, p: nat, n: nat): (v: nat)
    ensures v < Pow2(n)
  {
    if n == 0 then 0 else 2 * Value(vec, p, n - 1) + BitAt(vec, p + n - 1)
  }

  lemma OneMore(whole: nat, high: nat, power: nat, low: nat, bit: nat)
    requires whole == high * power + low
    ensures 2 * whole + bit == high * (2 * power) + (2 * low + bit)
  {
    assert high * (2 * power) == 2 * (high * power);
  }

  lemma ValueStep(vec: seq<byte>, p: nat, n: nat)
    requires n > 0
    ensures Value(vec, p, n) == 2 * Value(vec, p, n - 1) + BitAt(vec, p + n - 1) && Pow2(n) == 2 * Pow2(n - 1)
  {
  }

  lemma NoBits(vec: seq<byte>, p: nat)
    ensures Value(vec, p, 0) == 0 && Pow2(0) == 1
  {
  }

  lemma {:induction false} ValueSplit(vec: seq<byte>, p: nat, a: nat, b: nat)
    ensures Value(vec, p, a + b) == Value(vec, p, a) * Pow2(b) + Value(vec, p + a, b)
  {
    hide *;
    if b == 0 {
      NoBits(vec, p + a);
    } else {
      ValueStep(vec, p, a + b);
      ValueStep(vec, p + a, b);
      ValueSplit(vec, p, a, b - 1);
      assert (p + a) + b - 1 == p + (a + b) - 1;
      OneMore(Value(vec, p, a + b - 1), Value(vec, p, a), Pow2(b - 1), Value(vec, p + a, b - 1), BitAt(vec, p + a + b - 1));
    }
  }

  lemma {:induction false} NothingPastTheEnd(vec: seq<byte>, p: nat, n: nat)
    requires p >= 8 * |vec|
    ensures Value(vec, p, n) == 0
  {
    if n > 0 {
      NothingPastTheEnd(vec, p, n - 1);
    }
  }

  // ---- a bit at a time ----

  /** Where reading one bit leaves the position: it never passes the end. */
  function AfterBit(vec: seq<byte>, p: nat): nat {
    if p / 8 < |vec| then p + 1 else p
  }

  /** n bits read one after the other: their number, and the position after. */
  function BitByBit(vec: seq<byte>, p: nat, n: nat): (nat, nat) {
    if n == 0 then (0, p)
    else
      var (v, q) := BitByBit(vec, p, n - 1);
      (2 * v + BitAt(vec, q), AfterBit(vec, q))
  }

  lemma {:induction false} BitByBitIs(vec: seq<byte>, p: nat, n: nat)
    ensures BitByBit(vec, p, n).0 == Value(vec, p, n)
    ensures BitByBit(vec, p, n).1 == if p + n <= 8 * |vec| then p + n else if p < 8 * |vec| then 8 * |vec| else p
  {
    if n > 0 {
      BitByBitIs(vec, p, n - 1);
      var q := BitByBit(vec, p, n - 1).1;
      assert q == p + n - 1 || (BitAt(vec, q) == 0 && BitAt(vec, p + n - 1) == 0);
    }
  }

  // ---- a word at a time ----

  const WORD: nat := 0x1_0000_0000

  function ByteAt(vec: seq<byte>, i: nat): byte {
    if i < |vec| then vec[i] else 0
  }

  /** Four bytes from byte i on, zeros past the end. */
  function Word(vec: seq<byte>, i: nat): nat {
    ByteAt(vec, i) as int * 0x100_0000 + ByteAt(vec, i + 1) as int * 0x1_0000 + ByteAt(vec, i + 2) as int * 0x100 + ByteAt(vec, i + 3) as int
  }

  /** The word's bits from bitPos on, num of them, in 32-bit arithmetic. */
  function Shifted(word: nat, bitPos: nat, num: nat): int {
    if num <= 32 then Right(Left(word, bitPos), 32 - num) else 0
  }

  function Left(word: nat, k: nat): nat { word * Pow2(k) % WORD }

  function Right(word: nat, k: nat): int { word / Pow2(k) }

  lemma Mono(a: nat, b: nat, k: nat)
    requires a <= b
    ensures a * k <= b * k
  {
  }

  lemma Quotient(n: nat, q: nat, rest: nat, d: nat)
    requires n == q * d + rest && rest < d
    ensures n / d == q
  {
    var e := n / d;
    assert n == e * d + n % d;
    if e < q {
      Mono(e + 1, q, d);
    } else if e > q {
      Mono(q + 1, e, d);
    }
  }

  lemma Halves(b: nat, d: nat)
    requires d > 0
    ensures 2 * (b / (2 * d)) + (b / d) % 2 == b / d
  {
    var q, r := b / d, b % d;
    assert b == q * d + r;
    var h, t := q / 2, q % 2;
    assert q * d == h * (2 * d) + t * d;
    assert t * d <= d;
    Quotient(b, h, t * d + r, 2 * d);
  }

  lemma {:induction false} TopBits(vec: seq<byte>, i: nat, k: nat)
    requires i < |vec| && k <= 8
    ensures Value(vec, 8 * i, k) == vec[i] as int / Pow2(8 - k)
  {
    if k == 0 {
      assert Pow2(4) == 16;
      Pow2Sum(4, 4);
    } else {
      TopBits(vec, i, k - 1);
      var p := 8 * i + k - 1;
      assert p / 8 == i && p % 8 == k - 1;
      assert BitAt(vec, p) == vec[i] as int / Pow2(8 - k) % 2;
      assert Value(vec, 8 * i, k) == 2 * Value(vec, 8 * i, k - 1) + BitAt(vec, p);
      assert Pow2(8 - (k - 1)) == 2 * Pow2(8 - k);
      hide *;
      Halves(vec[i] as int, Pow2(8 - k));
    }
  }

  lemma ByteIs(vec: seq<byte>, i: nat)
    ensures Value(vec, 8 * i, 8) == ByteAt(vec, i) as int
  {
    if i < |vec| {
      TopBits(vec, i, 8);
    } else {
      NothingPastTheEnd(vec, 8 * i, 8);
    }
  }

  lemma Powers()
    ensures Pow2(8) == 0x100 && Pow2(16) == 0x1_0000 && Pow2(24) == 0x100_0000 && Pow2(32) == WORD
  {
    assert Pow2(4) == 16;
    Pow2Sum(4, 4);
    Pow2Sum(8, 8);
    Pow2Sum(8, 16);
    Pow2Sum(16, 16);
  }

  lemma WordIs(vec: seq<byte>, i: nat)
    ensures Word(vec, i) == Value(vec, 8 * i, 32)
  {
    Powers();
    hide Pow2, Value, ByteAt;
    ByteIs(vec, i);
    ByteIs(vec, i + 1);
    ByteIs(vec, i + 2);
    ByteIs(vec, i + 3);
    ValueSplit(vec, 8 * i, 24, 8);
    ValueSplit(vec, 8 * i, 16, 8);
    ValueSplit(vec, 8 * i, 8, 8);
  }

  /** What the shifts leave: the bits asked for, or, past the word's end, the
      bits left in the word followed by zeros. */
  lemma ShiftedIs(vec: seq<byte>, i: nat, bitPos: nat, num: nat)
    requires bitPos < 8 && num <= 32
    ensures bitPos + num <= 32 ==> Shifted(Word(vec, i), bitPos, num) == Value(vec, 8 * i + bitPos, num)
    ensures bitPos + num > 32 ==>
              Shifted(Word(vec, i), bitPos, num) == Value(vec, 8 * i + bitPos, 32 - bitPos) * Pow2(bitPos + num - 32)
  {
    WordIs(vec, i);
    Powers();
    hide Value, Word, Pow2;
    var p, rest := 8 * i, 32 - bitPos;
    ValueSplit(vec, p, bitPos, rest);
    Pow2Sum(rest, bitPos);
    var v := Value(vec, p + bitPos, rest);
    DropHigh(Word(vec, i), Value(vec, p, bitPos), v, Pow2(rest), Pow2(bitPos));
    if num <= rest {
      ValueSplit(vec, p + bitPos, num, rest - num);
      Pow2Sum(rest - num, bitPos);
      DropLow(v, Value(vec, p + bitPos, num), Value(vec, p + bitPos + num, rest - num), Pow2(rest - num), Pow2(bitPos));
    } else {
      Pow2Sum(32 - num, num - rest);
      Fewer(v, Pow2(32 - num), Pow2(num - rest), Pow2(bitPos));
    }
  }

  lemma DropHigh(word: nat, high: nat, low: nat, r: nat, k: nat)
    requires word == high * r + low && low < r && r * k == WORD
    ensures word * k % WORD == low * k
  {
    assert word * k == high * WORD + low * k by {
      assert word * k == high * r * k + low * k;
      assert high * r * k == high * (r * k);
    }
    assert low * k < r * k by {
      assert k > 0;
      Less(low, r, k);
    }
  }

  lemma Less(a: nat, b: nat, k: nat)
    requires a < b && k > 0
    ensures a * k < b * k
  {
    Mono(a + 1, b, k);
  }

  lemma DropLow(v: nat, top: nat, low: nat, r: nat, k: nat)
    requires v == top * r + low && low < r && k > 0
    ensures v * k / (r * k) == top
  {
    assert v * k == top * (r * k) + low * k;
    Less(low, r, k);
    Quotient(v * k, top, low * k, r * k);
  }

  lemma Fewer(v: nat, d: nat, e: nat, k: nat)
    requires d * e == k && d > 0
    ensures v * k / d == v * e
  {
    assert v * k == (v * e) * d by {
      assert v * (d * e) == (v * e) * d;
    }
    Quotient(v * k, v * e, 0, d);
  }

  class Reader {
    const vec: seq<byte>
    var bitPos: nat
    var bytePos: nat

    predicate Valid()
      reads this
    {
      bitPos < 8
    }

    function BitPos(): nat
      reads this
    {
      bytePos * 8 + bitPos
    }

    constructor (vec: seq<byte>)
      ensures Valid() && this.vec == vec && BitPos() == 0
    {
      this.vec, bitPos, bytePos := vec, 0, 0;
    }

    method SetPos(pos: nat)
      modifies this
      ensures Valid() && BitPos() == pos
    {
      bytePos, bitPos := pos / 8, pos % 8;
    }

    method Bit() returns (bit: nat)
      requires Valid()
      modifies this
      ensures Valid()
      ensures bit == BitAt(vec, old(BitPos())) && BitPos() == AfterBit(vec, old(BitPos()))
    {
      if |vec| <= bytePos {
        return 0;
      }
      assert BitPos() / 8 == bytePos && BitPos() % 8 == bitPos;
      bit := vec[bytePos] / Pow2(7 - bitPos) % 2;
      bytePos, bitPos := bytePos + (bitPos + 1) / 8, (bitPos + 1) % 8;
    }

    /** At once what Bit would read one at a time, as far as the word reaches;
        the position moves on by num, past the end if need be, unless it is at
        the end already. */
    method Bits(num: nat) returns (bits: int)
      requires Valid()
      modifies this
      ensures Valid()
      ensures old(bitPos) + num <= 32 ==> bits == BitByBit(vec, old(BitPos()), num).0
      ensures num <= 32 ==> (bits == BitByBit(vec, old(BitPos()), num).0 <==> Reaches(vec, old(BitPos()), num))
      ensures BitPos() == old(BitPos()) + if old(bytePos) < |vec| then num else 0
      ensures old(BitPos()) + num <= 8 * |vec| ==> BitPos() == BitByBit(vec, old(BitPos()), num).1
    {
      hide BitByBit, Shifted, Word, Reaches;
      if num == 0 {
        NothingRead(vec, BitPos(), 0);
        return 0;
      }
      if |vec| <= bytePos {
        NothingRead(vec, BitPos(), num);
        return 0;
      }
      bits := Shifted(Word(vec, bytePos), bitPos, num);
      WordRead(vec, bytePos, bitPos, num);
      bytePos, bitPos := bytePos + (bitPos + num) / 8, (bitPos + num) % 8;
    }
  }

  lemma NothingRead(vec: seq<byte>, p: nat, num: nat)
    requires num == 0 || p >= 8 * |vec|
    ensures BitByBit(vec, p, num).0 == 0 && Reaches(vec, p, num)
    ensures p + num <= 8 * |vec| ==> BitByBit(vec, p, num).1 == p
  {
    BitByBitIs(vec, p, num);
    if num > 0 {
      NothingPastTheEnd(vec, p, num);
      Beyond(vec, p, num);
    }
  }

  lemma WordRead(vec: seq<byte>, i: nat, bitPos: nat, num: nat)
    requires bitPos < 8
    ensures bitPos + num <= 32 ==> Shifted(Word(vec, i), bitPos, num) == BitByBit(vec, i * 8 + bitPos, num).0
    ensures num <= 32 ==> (Shifted(Word(vec, i), bitPos, num) == BitByBit(vec, i * 8 + bitPos, num).0 <==> Reaches(vec, i * 8 + bitPos, num))
    ensures i * 8 + bitPos + num <= 8 * |vec| ==> BitByBit(vec, i * 8 + bitPos, num).1 == i * 8 + bitPos + num
  {
    hide Shifted, Word, Value;
    assert (i * 8 + bitPos) % 8 == bitPos;
    BitByBitIs(vec, i * 8 + bitPos, num);
    ReachesExactly(vec, i, bitPos, num);
  }

  /** The bits asked for are all in the four bytes read, or those that are not
      are zeros. */
  ghost predicate Reaches(vec: seq<byte>, p: nat, num: nat) {
    p % 8 + num <= 32 || Value(vec, p - p % 8 + 32, p % 8 + num - 32) == 0
  }

  lemma Beyond(vec: seq<byte>, p: nat, num: nat)
    requires p >= 8 * |vec|
    ensures Reaches(vec, p, num)
  {
    if p % 8 + num > 32 {
      NothingPastTheEnd(vec, p - p % 8 + 32, p % 8 + num - 32);
    }
  }

  /** The word's bits are the bits asked for exactly when they reach. */
  lemma ReachesExactly(vec: seq<byte>, i: nat, bitPos: nat, num: nat)
    requires bitPos < 8
    ensures num <= 32 ==> (Shifted(Word(vec, i), bitPos, num) == Value(vec, 8 * i + bitPos, num) <==> Reaches(vec, 8 * i + bitPos, num))
  {
    hide Value, Word, Shifted, Pow2;
    var p := 8 * i + bitPos;
    assert p % 8 == bitPos;
    if num <= 32 {
      ShiftedIs(vec, i, bitPos, num);
      if bitPos + num > 32 {
        ValueSplit(vec, p, 32 - bitPos, bitPos + num - 32);
        assert p - p % 8 + 32 == p + (32 - bitPos);
      }
    }
  }
}
