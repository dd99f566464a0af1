/** The CRC as the standard defines it: the remainder of the bits, as a
    polynomial over the two-element field, divided by x^16 + x^15 + x^2 + 1
    (section 2.4.3.1 of ISO/IEC 11172-3). */
module Division {
  import opened Common
  import opened Cut

  function Xor(a: seq<bool>, b: seq<bool>): (r: seq<bool>)
    requires |a| == |b|
    ensures |r| == |a|
  {
    seq(|a|, i requires 0 <= i < |a| => a[i] != b[i])
  }

  function Repeat(bit: bool, n: nat): (bits: seq<bool>)
    ensures |bits| == n && forall i | 0 <= i < n :: bits[i] == bit
  {
    seq(n, i => bit)
  }

  /** One step of long division: the divisor, if it goes, takes the leading
      term away, and the terms it has below. */
  function Step(s: seq<bool>): (r: seq<bool>)
    requires |s| > 16
    ensures |r| == |s| - 1
  {
    var rest := s[1..];
    if s[0] then rest[0 := !rest[0]][13 := !rest[13]][15 := !rest[15]] else rest
  }

  function Remainder(s: seq<bool>): (r: seq<bool>)
    requires |s| >= 16
    ensures |r| == 16
    decreases |s|
  {
    if |s| == 16 then s else Remainder(Step(s))
  }

  // ---- the register, bit by bit ----

  lemma NextBit(crc: bv16, n: nat)
    ensures RegisterBits(crc, n + 1) == [Top(crc)] + RegisterBits(Shift(crc), n)
  {
  }

  predicate IsXor(c: bv16, a: bv16, b: bv16) { c == a ^ b }

  lemma TopXor(c: bv16, a: bv16, b: bv16)
    requires IsXor(c, a, b)
    ensures IsXor(Shift(c), Shift(a), Shift(b)) && (Top(c) <==> Top(a) != Top(b))
  {
  }

  lemma XorJoin(x: bool, y: bool, a: seq<bool>, b: seq<bool>)
    requires |a| == |b|
    ensures Xor([x] + a, [y] + b) == [x != y] + Xor(a, b)
  {
  }

  lemma {:induction false} RegisterXor(c: bv16, a: bv16, b: bv16, n: nat)
    requires IsXor(c, a, b)
    ensures RegisterBits(c, n) == Xor(RegisterBits(a, n), RegisterBits(b, n))
    decreases n
  {
    hide *;
    if n == 0 {
      NoBits(c, a, b);
    } else {
      TopXor(c, a, b);
      RegisterXor(Shift(c), Shift(a), Shift(b), n - 1);
      NextBit(a, n - 1);
      NextBit(b, n - 1);
      NextBit(c, n - 1);
      XorJoin(Top(a), Top(b), RegisterBits(Shift(a), n - 1), RegisterBits(Shift(b), n - 1));
    }
  }

  lemma NoBits(c: bv16, a: bv16, b: bv16)
    ensures RegisterBits(c, 0) == Xor(RegisterBits(a, 0), RegisterBits(b, 0))
  {
  }

  lemma {:induction false} RegisterEnds(crc: bv16, n: nat)
    ensures RegisterBits(crc, n + 1) == RegisterBits(crc, n) + [Top(ShiftedOut(crc, n))]
    decreases n
  {
    hide Top, Shift;
    if n > 0 {
      RegisterEnds(Shift(crc), n - 1);
      NextBit(crc, n);
    }
  }

  /** Shifting drops the first bit and brings in a zero. */
  lemma RegisterShift(crc: bv16)
    ensures RegisterBits(crc, 16) == [Top(crc)] + RegisterBits(Shift(crc), 15)
    ensures RegisterBits(Shift(crc), 16) == RegisterBits(Shift(crc), 15) + [false]
  {
    RegisterEnds(Shift(crc), 15);
    AllShiftedOut(crc);
    assert ShiftedOut(crc, 16) == ShiftedOut(Shift(crc), 15);
  }

  /** Four bits out of the register, given how it shifts. */
  lemma NextFour(crc: bv16, one: bv16, two: bv16, three: bv16, four: bv16, n: nat)
    requires one == Shift(crc) && two == Shift(one) && three == Shift(two) && four == Shift(three)
    ensures RegisterBits(crc, n + 4) == [Top(crc), Top(one), Top(two), Top(three)] + RegisterBits(four, n)
  {
    hide *;
    NextBit(crc, n + 3);
    NextBit(one, n + 2);
    NextBit(two, n + 1);
    NextBit(three, n);
    JoinFour(Top(crc), Top(one), Top(two), Top(three), RegisterBits(four, n));
  }

  lemma JoinFour(a: bool, b: bool, c: bool, d: bool, s: seq<bool>)
    ensures [a] + ([b] + ([c] + ([d] + s))) == [a, b, c, d] + s
  {
  }

  /** The divisor's lower terms. */
  lemma LowerTerms()
    ensures RegisterBits(0x8005, 16) == [true] + Repeat(false, 12) + [true, false, true]
  {
    NextFour(0x8005, 0x000A, 0x0014, 0x0028, 0x0050, 12);
    NextFour(0x0050, 0x00A0, 0x0140, 0x0280, 0x0500, 8);
    NextFour(0x0500, 0x0A00, 0x1400, 0x2800, 0x5000, 4);
    NextFour(0x5000, 0xA000, 0x4000, 0x8000, 0, 0);
    assert Top(0x8005) && !Top(0x000A) && !Top(0x0014) && !Top(0x0028) && !Top(0x0050) && !Top(0x00A0) && !Top(0x0140) && !Top(0x0280);
    assert !Top(0x0500) && !Top(0x0A00) && !Top(0x1400) && !Top(0x2800) && !Top(0x5000) && Top(0xA000) && !Top(0x4000) && Top(0x8000);
    hide Top, Shift;
  }

  // ---- the CRC is the remainder ----

  /** The register's bits, ahead of as many more as there are left to feed, with those added in. */
  function Pending(crc: bv16, bits: seq<bool>): (s: seq<bool>)
    ensures |s| == |bits| + 16
  {
    Ahead(RegisterBits(crc, 16), bits)
  }

  lemma FeedMeans(crc: bv16, bit: bool)
    ensures if Top(crc) == bit then Feed(crc, bit) == Shift(crc) else IsXor(Feed(crc, bit), Shift(crc), 0x8005)
  {
  }

  lemma FedIs(crc: bv16, bit: bool)
    ensures Top(crc) == bit ==> RegisterBits(Feed(crc, bit), 16) == RegisterBits(Shift(crc), 16)
    ensures Top(crc) != bit ==> RegisterBits(Feed(crc, bit), 16) == Xor(RegisterBits(Shift(crc), 16), RegisterBits(0x8005, 16))
  {
    hide *;
    FeedMeans(crc, bit);
    if Top(crc) != bit {
      RegisterXor(Feed(crc, bit), Shift(crc), 0x8005, 16);
    }
  }

  /** One bit fed is one step of the division, on what the register holds. */
  lemma FedRegister(crc: bv16, bit: bool)
    ensures var register := RegisterBits(crc, 16);
            var rest := register[1..] + [false];
            RegisterBits(Feed(crc, bit), 16)
            == if register[0] != bit then rest[0 := !rest[0]][13 := !rest[13]][15 := !rest[15]] else rest
  {
    hide *;
    FedIs(crc, bit);
    LowerTerms();
    RegisterShift(crc);
    FlipsThree(RegisterBits(Shift(crc), 16));
    RestIs(Top(crc), RegisterBits(Shift(crc), 15));
  }

  lemma RestIs(x: bool, s: seq<bool>)
    ensures ([x] + s)[0] == x && ([x] + s)[1..] == s
  {
  }

  lemma FlipsThree(s: seq<bool>)
    requires |s| == 16
    ensures Xor(s, [true] + Repeat(false, 12) + [true, false, true]) == s[0 := !s[0]][13 := !s[13]][15 := !s[15]]
  {
  }

  function Ahead(register: seq<bool>, bits: seq<bool>): (s: seq<bool>)
    requires |register| == 16
    ensures |s| == |bits| + 16
  {
    Xor(register + Repeat(false, |bits|), bits + Repeat(false, 16))
  }

  /** The division's step, on the register's bits. */
  lemma SteppedIs(register: seq<bool>, fed: seq<bool>, bits: seq<bool>)
    requires |register| == |fed| == 16 && bits != []
    requires var rest := register[1..] + [false];
             fed == if register[0] != bits[0] then rest[0 := !rest[0]][13 := !rest[13]][15 := !rest[15]] else rest
    ensures Ahead(fed, bits[1..]) == Step(Ahead(register, bits))
  {
    var s, next := Ahead(register, bits), Ahead(fed, bits[1..]);
    var rest := register[1..] + [false];
    assert s[0] == (register[0] != bits[0]);
    forall i | 0 <= i < |next|
      ensures next[i] == Step(s)[i]
    {
      assert s[i + 1] == ((if i < 16 then rest[i] else false) != (if i + 1 < |bits| then bits[i + 1] else false));
      assert next[i] == ((if i < 16 then fed[i] else false) != (if i + 1 < |bits| then bits[i + 1] else false));
    }
  }

  lemma FedIsStepped(crc: bv16, bits: seq<bool>)
    requires bits != []
    ensures Pending(Feed(crc, bits[0]), bits[1..]) == Step(Pending(crc, bits))
  {
    FedRegister(crc, bits[0]);
    SteppedIs(RegisterBits(crc, 16), RegisterBits(Feed(crc, bits[0]), 16), bits);
  }

  lemma {:induction false} FedIsRemainder(crc: bv16, bits: seq<bool>)
    ensures Remainder(Pending(crc, bits)) == RegisterBits(FeedAll(crc, bits), 16)
    decreases |bits|
  {
    if bits == [] {
      assert Pending(crc, bits) == RegisterBits(crc, 16);
    } else {
      FedIsStepped(crc, bits);
      FedIsRemainder(Feed(crc, bits[0]), bits[1..]);
    }
  }

  lemma AllOnes()
    ensures RegisterBits(0xFFFF, 16) == Repeat(true, 16)
  {
    NextFour(0xFFFF, 0xFFFE, 0xFFFC, 0xFFF8, 0xFFF0, 12);
    NextFour(0xFFF0, 0xFFE0, 0xFFC0, 0xFF80, 0xFF00, 8);
    NextFour(0xFF00, 0xFE00, 0xFC00, 0xF800, 0xF000, 4);
    NextFour(0xF000, 0xE000, 0xC000, 0x8000, 0, 0);
  }

  lemma {:induction false} EightEach(data: seq<byte>)
    ensures |BitString(data)| == 8 * |data|
  {
    if data != [] {
      EightEach(data[..|data| - 1]);
    }
  }

  /** The CRC is what is left of the data's bits, followed by sixteen zeros and
      with the first sixteen of all these inverted, after the division. */
  lemma CrcIsRemainder(data: seq<byte>)
    ensures |BitString(data)| == 8 * |data|
    ensures RegisterBits(Crc(data), 16)
            == Remainder(Xor(BitString(data) + Repeat(false, 16), Repeat(true, 16) + Repeat(false, 8 * |data|)))
  {
    EightEach(data);
    AllOnes();
    FedIsRemainder(0xFFFF, BitString(data));
    assert Pending(0xFFFF, BitString(data)) == Xor(BitString(data) + Repeat(false, 16), Repeat(true, 16) + Repeat(false, 8 * |data|));
  }
}
