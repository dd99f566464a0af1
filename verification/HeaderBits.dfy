/** What the bytes of a frame mean, bit by bit: its header's fields, its back
    pointer and the length of its side information, as the bit reader reads
    them; and what the sizes and times made of them come to. */
module HeaderBits {
  import opened Common
  import opened Mp3
  import opened BitReader

  // ---- fields ----

  lemma Regroup(h: int, e: int, t: int, d: int, r: int)
    ensures (h * e + t) * d + r == h * (d * e) + (t * d + r)
  {
    assert (h * e + t) * d == h * e * d + t * d;
    assert h * e * d == h * (d * e);
  }

  lemma Below(t: nat, e: nat, d: nat, r: nat)
    requires t < e && r < d
    ensures t * d + r < d * e
  {
    Mono(t + 1, e, d);
    assert (t + 1) * d == t * d + d;
  }

  lemma Divided(b: nat, d: nat) returns (q: nat, r: nat)
    requires d > 0
    ensures b == q * d + r && r < d && q == b / d
  {
    q, r := b / d, b % d;
  }

  lemma DividedOnce(b: nat, d: nat, e: nat, q: nat, r: nat, h: nat, t: nat)
    requires b == q * d + r && r < d && q == h * e + t && t < e
    ensures d * e > 0 && b / (d * e) == h
  {
    Regroup(h, e, t, d, r);
    Below(t, e, d, r);
    Quotient(b, h, t * d + r, d * e);
  }

  lemma DivideTwice(b: nat, d: nat, e: nat)
    requires d > 0 && e > 0
    ensures d * e > 0 && b / (d * e) == b / d / e
  {
    var q, r := Divided(b, d);
    var h, t := Divided(q, e);
    DividedOnce(b, d, e, q, r, h, t);
  }

  /** Bits within byte i, in terms of the byte. */
  lemma Field(raw: seq<byte>, i: nat, s: nat, n: nat)
    requires i < |raw| && s + n <= 8
    ensures Value(raw, 8 * i + s, n) == raw[i] as int / Pow2(8 - s - n) % Pow2(n)
  {
    hide *;
    ValueSplit(raw, 8 * i, s, n);
    TopBits(raw, i, s);
    TopBits(raw, i, s + n);
    Pow2Sum(8 - s - n, n);
    DivideTwice(raw[i] as int, Pow2(8 - s - n), Pow2(n));
    Rest(raw[i] as int / Pow2(8 - s - n), Pow2(n));
  }

  lemma Rest(q: nat, e: nat)
    requires e > 0
    ensures q - q / e * e == q % e
  {
  }

  lemma Powers()
    ensures Pow2(0) == 1 && Pow2(1) == 2 && Pow2(2) == 4 && Pow2(3) == 8 && Pow2(4) == 16
    ensures Pow2(5) == 32 && Pow2(6) == 64 && Pow2(7) == 128 && Pow2(8) == 256
  {
    assert Pow2(4) == 16 && Pow2(6) == 4 * Pow2(4) && Pow2(8) == 4 * Pow2(6);
  }

  /** The first eleven bits of a header are set. */
  lemma SyncBits(raw: seq<byte>)
    requires |raw| >= 4
    ensures Value(raw, 0, 11) == 2047 <==> raw[0] == 0xFF && raw[1] / 32 == 7
  {
    Powers();
    ValueSplit(raw, 0, 8, 3);
    ByteIs(raw, 0);
    Field(raw, 1, 0, 3);
    hide Value, Pow2;
  }

  lemma SecondByte(raw: seq<byte>)
    requires |raw| >= 4
    ensures Value(raw, 11, 2) == raw[1] as int / 8 % 4 && Value(raw, 13, 2) == raw[1] as int / 2 % 4 && Value(raw, 15, 1) == raw[1] as int % 2
  {
    Powers();
    hide *;
    Field(raw, 1, 3, 2);
    Field(raw, 1, 5, 2);
    Field(raw, 1, 7, 1);
  }

  lemma OtherBytes(raw: seq<byte>)
    requires |raw| >= 4
    ensures Value(raw, 16, 4) == raw[2] as int / 16 && Value(raw, 20, 2) == raw[2] as int / 4 % 4
    ensures Value(raw, 22, 1) == raw[2] as int / 2 % 2 && Value(raw, 24, 2) == raw[3] as int / 64
  {
    Powers();
    hide *;
    Field(raw, 2, 0, 4);
    Field(raw, 2, 4, 2);
    Field(raw, 2, 6, 1);
    Field(raw, 3, 0, 2);
  }

  /** Which four bytes are a header, and what their bits say: the sync word,
      version, layer, protection, bit rate, sample rate, padding, a private
      bit, and the channel mode (ISO/IEC 11172-3, section 2.4.1.3). */
  lemma HeaderFields(raw: seq<byte>)
    requires |raw| >= 4
    ensures ParseHeader(raw).Some? <==>
              && Value(raw, 0, 11) == 2047 && Value(raw, 11, 2) != 1 && Value(raw, 13, 2) != 0
              && Value(raw, 16, 4) != 0 && Value(raw, 16, 4) != 15 && Value(raw, 20, 2) != 3
    ensures ParseHeader(raw).Some? ==>
              var h := ParseHeader(raw).value;
              && h.version == (match Value(raw, 11, 2) case 0 => MPEG25 case 2 => MPEG2 case _ => MPEG1)
              && 1 <= h.layer == 4 - Value(raw, 13, 2)
              && (h.protected <==> Value(raw, 15, 1) == 0)
              && h.bitrate == Bitrate(h.version, h.layer, Value(raw, 16, 4))
              && h.sampleRate == SampleRate(h.version, Value(raw, 20, 2))
              && (h.padding <==> Value(raw, 22, 1) == 1)
              && (h.mono <==> Value(raw, 24, 2) == 3)
  {
    SyncBits(raw);
    SecondByte(raw);
    OtherBytes(raw);
    hide Value, Bitrate, SampleRate;
  }

  /** How the tables of rates are made. MPEG-2's and 2.5's sample rates are a
      half and a quarter of MPEG-1's. Layer III's bit rates go up in four
      steps to twice the rate; Layer II's are the same from the third on, but
      for the first and the last two; Layer I's go up evenly. MPEG-2's Layers
      II and III share theirs, which go up in steps of 8 to 64 and of 16 after. */
  lemma Rates(i: nat)
    requires 1 <= i < 15
    ensures i < 4 ==> SampleRate(MPEG1, i - 1) == [44100, 48000, 32000][i - 1]
    ensures i < 4 ==> 2 * SampleRate(MPEG2, i - 1) == SampleRate(MPEG1, i - 1) == 4 * SampleRate(MPEG25, i - 1)
    ensures Bitrate(MPEG1, 1, i) == 32 * i
    ensures i < 5 ==> Bitrate(MPEG1, 3, i) == 24 + 8 * i
    ensures i + 4 < 15 ==> Bitrate(MPEG1, 3, i + 4) == 2 * Bitrate(MPEG1, 3, i)
    ensures 2 <= i < 14 ==> Bitrate(MPEG1, 2, i) == Bitrate(MPEG1, 3, i + 1)
    ensures Bitrate(MPEG1, 2, 1) == 32 && Bitrate(MPEG1, 2, 14) == 2 * Bitrate(MPEG1, 2, 10)
    ensures Bitrate(MPEG2, 2, i) == Bitrate(MPEG2, 3, i) == if i <= 8 then 8 * i else 16 * i - 64
    ensures Bitrate(MPEG2, 1, i) == if i == 1 then 32 else if i <= 4 then 32 + 8 * i else if i <= 12 then 16 * i else 32 * i - 192
  {
    assert i in {1, 2, 3, 4, 5, 6, 7, 8, 9, 10, 11, 12, 13, 14};
  }

  // ---- the back pointer ----

  /** The number spelled by the first 9 bits after the header and CRC, or the
      first 8 in MPEG-2. */
  function Spelled(bytes: seq<byte>, h: Header): nat {
    Value(bytes, 8 * (if h.protected then 6 else 4), if h.version.MPEG1? then 9 else 8)
  }

  /** That is the back pointer. */
  lemma BackPointer(bytes: seq<byte>, h: Header)
    requires |bytes| >= MainDataOffset(h)
    ensures MainDataBegin(bytes, h) == Spelled(bytes, h)
  {
    Powers();
    hide Value, Pow2;
    if h.version.MPEG1? {
      NineBits(bytes, SideInfoStart(h));
    } else {
      ByteIs(bytes, SideInfoStart(h));
    }
  }

  lemma NineBits(bytes: seq<byte>, i: nat)
    requires i + 1 < |bytes|
    ensures Value(bytes, 8 * i, 9) == 2 * (bytes[i] as int) + bytes[i + 1] as int / 128
  {
    Powers();
    hide Value, Pow2;
    ByteIs(bytes, i);
    ValueSplit(bytes, 8 * i, 8, 1);
    Field(bytes, i + 1, 0, 1);
  }

  /** The widths of the side information's fields, which come to its length:
      the back pointer and private bits; per channel four selection bits in
      MPEG-1; per granule, of which MPEG-1 has two, and channel 12, 9, 8 and 4
      or 9 bits, one flag, 22 bits that depend on it, and the last flags. */
  lemma SideInfoIsItsFields(h: Header)
    ensures var channels := if h.mono then 1 else 2;
            8 * SideInfoSize(h) ==
              if h.version.MPEG1?
              then 9 + (if h.mono then 5 else 3) + 4 * channels + 2 * channels * (12 + 9 + 8 + 4 + 1 + 22 + 3)
              else 8 + (if h.mono then 1 else 2) + channels * (12 + 9 + 8 + 9 + 1 + 22 + 2)
    ensures MainDataOffset(h) == 4 + (if h.protected then 2 else 0) + SideInfoSize(h)
  {
  }

  // ---- sizes and times ----

  /** A slot: four bytes in Layer I, one in the others. */
  function Slot(h: Header): nat { if h.layer == 1 then 4 else 1 }

  /** A frame's slots, without padding, are as many as its bit rate gives in
      the time its samples play: no more, and not one fewer. */
  lemma SizeFollowsTime(h: Header)
    requires Plausible(h)
    ensures h.sampleRate > 0 && Size(h) % Slot(h) == 0
    ensures var slots := Size(h) / Slot(h) - if h.padding then 1 else 0;
            && slots * (8 * Slot(h)) * h.sampleRate <= Samples(h) * h.bitrate * 1000
            && Samples(h) * h.bitrate * 1000 < (slots + 1) * (8 * Slot(h)) * h.sampleRate
  {
    var width := 8 * Slot(h);
    var k := Samples(h) / width;
    SlotsAre(h, k * (h.bitrate * 1000) / h.sampleRate);
    var slots, rest := Divided(k * (h.bitrate * 1000), h.sampleRate);
    hide *;
    Scaled(width, slots, h.sampleRate, k * (h.bitrate * 1000), Samples(h), k, h.bitrate);
    PaddingAside(Size(h), slots, h.padding, Slot(h));
  }

  lemma PaddingAside(size: nat, slots: nat, padding: bool, slot: nat)
    requires slot in {1, 4} && size == (slots + if padding then 1 else 0) * slot
    ensures size % slot == 0 && size / slot - (if padding then 1 else 0) == slots
  {
  }

  lemma SlotsAre(h: Header, slots: nat)
    requires Plausible(h) && slots == Samples(h) / (8 * Slot(h)) * (h.bitrate * 1000) / h.sampleRate
    ensures Size(h) == (slots + if h.padding then 1 else 0) * Slot(h)
    ensures Samples(h) % (8 * Slot(h)) == 0
  {
  }

  lemma Scaled(width: nat, slots: nat, rate: nat, all: nat, samples: nat, k: nat, bitrate: nat)
    requires slots * rate <= all < slots * rate + rate && samples == k * width && all == k * (bitrate * 1000) && width > 0
    ensures slots * width * rate <= samples * bitrate * 1000 < (slots + 1) * width * rate
  {
    assert samples * bitrate * 1000 == width * all by {
      assert k * width * bitrate * 1000 == width * (k * (bitrate * 1000));
    }
    assert slots * width * rate == width * (slots * rate);
    assert (slots + 1) * width * rate == width * (slots * rate + rate);
    Mono(slots * rate, all, width);
    Mono(all + 1, slots * rate + rate, width);
    assert width * (all + 1) == width * all + width;
  }

  /** A frame's time is its samples at its sample rate, to a nanosecond. */
  lemma TimeIsItsSamples(h: Header)
    requires h.sampleRate > 0
    ensures Mp3.Duration(h) * h.sampleRate <= Samples(h) * 1_000_000_000 < (Mp3.Duration(h) + 1) * h.sampleRate
  {
  }
}
