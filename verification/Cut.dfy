/** Writing the cut file, and what reading it back finds. */
module Cut {
  import opened Common
  import opened Mp3
  import opened Reservoir

  // ---- crc16 ----

  /** The register's first bit. */
  predicate Top(crc: bv16) {
    crc & 0x8000 != 0
  }

  /** The register without it. */
  function Shift(crc: bv16): bv16 {
    crc << 1
  }

  /** One bit through the register: polynomial 0x8005. */
  function Feed(crc: bv16, bit: bool): bv16 {
    var shifted := Shift(crc);
    if Top(crc) != bit then shifted ^ 0x8005 else shifted
  }

  function FeedAll(crc: bv16, bits: seq<bool>): bv16
    decreases |bits|
  {
    if bits == [] then crc else FeedAll(Feed(crc, bits[0]), bits[1..])
  }

  /** The low n bits of a number, most significant first. */
  function Bits(v: nat, n: nat): (bits: seq<bool>)
    ensures |bits| == n
    decreases n
  {
    if n == 0 then [] else Bits(v / 2, n - 1) + [v % 2 == 1]
  }

  /** The number some bits make, most significant first. */
  function Number(bits: seq<bool>): (v: nat) {
    if bits == [] then 0
    else 2 * Number(bits[..|bits| - 1]) + if bits[|bits| - 1] then 1 else 0
  }

  lemma {:induction false} NumberBits(bits: seq<bool>)
    ensures Bits(Number(bits), |bits|) == bits
  {
    if bits != [] {
      NumberBits(bits[..|bits| - 1]);
      assert bits == bits[..|bits| - 1] + [bits[|bits| - 1]];
    }
  }

  lemma {:induction false} NumberBound(bits: seq<bool>)
    ensures Number(bits) < Pow2(|bits|)
  {
    if bits != [] {
      NumberBound(bits[..|bits| - 1]);
    }
  }

  function ByteOf(bits: seq<bool>): (b: byte)
    requires |bits| == 8
  {
    NumberBound(bits);
    assert Pow2(8) == 2 * (2 * (2 * (2 * Pow2(4))));
    Number(bits)
  }

  function BitString(data: seq<byte>): (bits: seq<bool>) {
    if data == [] then [] else BitString(data[..|data| - 1]) + Bits(data[|data| - 1], 8)
  }

  function Crc(data: seq<byte>): bv16 {
    FeedAll(0xFFFF, BitString(data))
  }

  lemma {:induction false} FeedJoin(crc: bv16, a: seq<bool>, b: seq<bool>)
    ensures FeedAll(crc, a + b) == FeedAll(FeedAll(crc, a), b)
    decreases |a|
  {
    if a == [] {
      assert a + b == b;
    } else {
      assert (a + b)[1..] == a[1..] + b;
      FeedJoin(Feed(crc, a[0]), a[1..], b);
    }
  }

  method FeedBits(start: bv16, bits: seq<bool>) returns (crc: bv16)
    ensures crc == FeedAll(start, bits)
  {
    hide Feed;
    crc := start;
    for k := 0 to |bits|
      invariant crc == FeedAll(start, bits[..k])
    {
      FeedJoin(start, bits[..k], [bits[k]]);
      assert bits[..k + 1] == bits[..k] + [bits[k]];
      crc := Feed(crc, bits[k]);
    }
    assert bits[..|bits|] == bits;
  }

  method Crc16(data: seq<byte>) returns (crc: bv16)
    ensures crc == Crc(data)
  {
    crc := 0xFFFF;
    for i := 0 to |data|
      invariant crc == FeedAll(0xFFFF, BitString(data[..i]))
    {
      hide FeedAll, Bits;
      FeedJoin(0xFFFF, BitString(data[..i]), Bits(data[i], 8));
      assert data[..i + 1][..i] == data[..i];
      crc := FeedBits(crc, Bits(data[i], 8));
    }
    assert data[..|data|] == data;
  }

  /** The register's first n bits, most significant first. */
  function RegisterBits(crc: bv16, n: nat): (bits: seq<bool>)
    ensures |bits| == n
    decreases n
  {
    if n == 0 then [] else [Top(crc)] + RegisterBits(Shift(crc), n - 1)
  }

  function ShiftedOut(crc: bv16, n: nat): bv16
    decreases n
  {
    if n == 0 then crc else ShiftedOut(Shift(crc), n - 1)
  }

  /** Fed its own bits, the register only shifts. */
  lemma {:induction false} OwnBitsShift(crc: bv16, n: nat)
    ensures FeedAll(crc, RegisterBits(crc, n)) == ShiftedOut(crc, n)
    decreases n
  {
    if n > 0 {
      OwnBitsShift(Shift(crc), n - 1);
      assert RegisterBits(crc, n)[1..] == RegisterBits(Shift(crc), n - 1);
    }
  }

  lemma AllShiftedOut(crc: bv16)
    ensures ShiftedOut(crc, 16) == 0
  {
    var c4 := FourShifts(crc, 12);
    var c8 := FourShifts(c4, 8);
    var c12 := FourShifts(c8, 4);
    var c16 := FourShifts(c12, 0);
    assert c16 == 0;
  }

  lemma FourShifts(crc: bv16, n: nat) returns (after: bv16)
    ensures after == crc << 1 << 1 << 1 << 1
    ensures ShiftedOut(crc, n + 4) == ShiftedOut(after, n)
  {
    var one, two, three := Shift(crc), Shift(Shift(crc)), Shift(Shift(Shift(crc)));
    after := Shift(three);
    assert ShiftedOut(crc, n + 4) == ShiftedOut(one, n + 3) == ShiftedOut(two, n + 2);
    assert ShiftedOut(two, n + 2) == ShiftedOut(three, n + 1) == ShiftedOut(after, n);
  }

  /** What a decoder checks: data followed by its own CRC leaves the register 0. */
  lemma CrcChecks(data: seq<byte>)
    ensures FeedAll(0xFFFF, BitString(data) + RegisterBits(Crc(data), 16)) == 0
  {
    FeedJoin(0xFFFF, BitString(data), RegisterBits(Crc(data), 16));
    OwnBitsShift(Crc(data), 16);
    AllShiftedOut(Crc(data));
  }

  // ---- SilentFrame ----

  function SideInfoEnd(bytes: seq<byte>, h: Header): (end: nat)
    requires |bytes| >= 6
    ensures SideInfoStart(h) <= end <= |bytes|
  {
    if MainDataOffset(h) <= |bytes| then MainDataOffset(h) else |bytes|
  }

  function Zeros(n: nat): (z: seq<byte>)
    ensures |z| == n && forall i | 0 <= i < n :: z[i] == 0
  {
    seq(n, i => 0)
  }

  /** The frame with its side information zeroed. */
  function Cleared(bytes: seq<byte>, h: Header): (s: seq<byte>)
    requires |bytes| >= 6
    ensures |s| == |bytes|
  {
    bytes[..SideInfoStart(h)] + Zeros(SideInfoEnd(bytes, h) - SideInfoStart(h)) + bytes[SideInfoEnd(bytes, h)..]
  }

  /** What the CRC is taken over: two header bytes, then the side information. */
  function Guarded(bytes: seq<byte>, h: Header): seq<byte>
    requires |bytes| >= 6
  {
    bytes[2..4] + bytes[SideInfoStart(h)..SideInfoEnd(bytes, h)]
  }

  /** A silent frame: its side information zeroed and its CRC made to match. */
  function SilentBytes(bytes: seq<byte>, h: Header): (s: seq<byte>)
    requires |bytes| >= 6
    ensures |s| == |bytes|
  {
    hide RegisterBits, ByteOf, Crc;
    var cleared := Cleared(bytes, h);
    if h.protected then
      var crc := RegisterBits(Crc(Guarded(cleared, h)), 16);
      cleared[4 := ByteOf(crc[..8])][5 := ByteOf(crc[8..])]
    else cleared
  }

  method SilentFrame(bytes: seq<byte>, h: Header) returns (silent: seq<byte>)
    requires |bytes| >= 6
    ensures silent == SilentBytes(bytes, h)
  {
    var copy := new byte[|bytes|](i requires 0 <= i < |bytes| => bytes[i]);
    var start, end := SideInfoStart(h), SideInfoEnd(bytes, h);
    for i := start to end
      invariant forall k | 0 <= k < |bytes| :: copy[k] == if start <= k < i then 0 else bytes[k]
    {
      copy[i] := 0;
    }
    assert copy[..] == Cleared(bytes, h);
    if h.protected {
      var crc := Crc16(copy[2..4] + copy[start..end]);
      assert copy[2..4] + copy[start..end] == Guarded(copy[..], h);
      var bits := RegisterBits(crc, 16);
      copy[4], copy[5] := ByteOf(bits[..8]), ByteOf(bits[8..]);
      assert copy[..] == SilentBytes(bytes, h);
    }
    silent := copy[..];
  }

  /** It keeps its header and every byte of audio data, its side information is
      all zeros, and so it borrows nothing. */
  lemma SilentKeepsData(bytes: seq<byte>, h: Header)
    requires |bytes| >= MainDataOffset(h)
    ensures var s := SilentBytes(bytes, h);
            && s[..4] == bytes[..4] && s[MainDataOffset(h)..] == bytes[MainDataOffset(h)..]
            && (forall i | (if h.protected then 6 else 4) <= i < MainDataOffset(h) :: s[i] == 0)
            && MainDataBegin(s, h) == 0
  {
    hide Crc, RegisterBits, ByteOf;
    var cleared := Cleared(bytes, h);
    var start, end := SideInfoStart(h), MainDataOffset(h);
    assert cleared[end..] == bytes[end..] && cleared[..4] == bytes[..4];
    assert cleared[start] == 0 && cleared[start + 1] == 0;
    var s := SilentBytes(bytes, h);
    assert s[end..] == cleared[end..] && s[..4] == cleared[..4];
  }

  /** The two bytes of its CRC leave a decoder's register at 0, after the header's
      last two bytes and the side information. */
  lemma SilentCrcChecks(bytes: seq<byte>, h: Header)
    requires |bytes| >= MainDataOffset(h) && h.protected
    ensures var s := SilentBytes(bytes, h);
            FeedAll(0xFFFF, BitString(s[2..4] + s[6..MainDataOffset(h)]) + (Bits(s[4], 8) + Bits(s[5], 8))) == 0
  {
    hide FeedAll, BitString, Crc, RegisterBits, Bits, Number;
    var s, cleared := SilentBytes(bytes, h), Cleared(bytes, h);
    assert Guarded(s, h) == Guarded(cleared, h) == s[2..4] + s[6..MainDataOffset(h)];
    var crc := RegisterBits(Crc(Guarded(cleared, h)), 16);
    NumberBits(crc[..8]);
    NumberBits(crc[8..]);
    assert crc == crc[..8] + crc[8..];
    CrcChecks(Guarded(cleared, h));
  }

  // ---- write ----

  /** A parsed file as far as the cutter relies on it: genuine frames of one
      stream, and the tags around them. */
  ghost predicate WellFormed(file: File) {
    && (forall i | 0 <= i < |file.frames| :: Genuine(file.data, |file.data|, file.frames[i]))
    && (forall i, j | 0 <= i < |file.frames| && 0 <= j < |file.frames| :: SameStream(file.frames[i].header, file.frames[j].header))
    && file.id3v2 == file.data[..TagsEnd(file.data, 0)]
    && (file.id3v1 == [] || (|file.id3v1| == 128 && file.id3v1[..3] == TAG))
  }

  function FrameSizes(file: File): (sizes: seq<nat>)
    ensures |sizes| == |file.frames|
  {
    seq(|file.frames|, i requires 0 <= i < |file.frames| => MainDataSize(file.frames[i]))
  }

  function Begins(file: File): (begins: seq<nat>)
    ensures |begins| == |file.frames|
  {
    seq(|file.frames|, i requires 0 <= i < |file.frames| => file.frames[i].mainDataBegin)
  }

  ghost function FilePlan(file: File, kept: seq<Segment>): (plan: seq<Written>)
    requires Ordered(kept, |file.frames|)
    ensures forall w | w in plan :: w.index < |file.frames|
  {
    Plan(FrameSizes(file), Begins(file), kept)
  }

  /** The bytes of one written frame. */
  function Part(file: File, w: Written): (part: seq<byte>)
    requires w.index < |file.frames| && Genuine(file.data, |file.data|, file.frames[w.index])
    ensures |part| == file.frames[w.index].size
  {
    var frame := file.frames[w.index];
    FramesHoldTheirHeaders(frame.header);
    if w.silent then SilentBytes(FrameBytes(file.data, frame), frame.header) else FrameBytes(file.data, frame)
  }

  function Parts(file: File, plan: seq<Written>): (parts: seq<seq<byte>>)
    requires forall w | w in plan :: w.index < |file.frames| && Genuine(file.data, |file.data|, file.frames[w.index])
    ensures |parts| == |plan|
    ensures forall j | 0 <= j < |plan| :: parts[j] == Part(file, plan[j])
  {
    seq(|plan|, j requires 0 <= j < |plan| => Part(file, plan[j]))
  }

  /** How long some written frames play. */
  function PlayTime(file: File, plan: seq<Written>): (t: nat)
    requires forall w | w in plan :: w.index < |file.frames| && file.frames[w.index].header.sampleRate > 0
  {
    if plan == [] then 0
    else PlayTime(file, plan[..|plan| - 1]) + Duration(file.frames[plan[|plan| - 1].index].header)
  }

  function SilentOnly(plan: seq<Written>): (silent: seq<Written>)
    ensures forall w | w in silent :: w in plan
  {
    if plan == [] then []
    else SilentOnly(plan[..|plan| - 1]) + if plan[|plan| - 1].silent then [plan[|plan| - 1]] else []
  }

  lemma {:induction false} FlattenMore(parts: seq<seq<byte>>, part: seq<byte>)
    ensures Flatten(parts + [part]) == Flatten(parts) + part
  {
    FlattenAppend(parts, [part]);
    assert [part][1..] == [] && Flatten([part]) == part + [];
  }

  lemma WriteStep(file: File, plan: seq<Written>, w: Written)
    requires forall v | v in plan + [w] :: v.index < |file.frames| && Genuine(file.data, |file.data|, file.frames[v.index])
    ensures Flatten(Parts(file, plan + [w])) == Flatten(Parts(file, plan)) + Part(file, w)
    ensures SilentOnly(plan + [w]) == if w.silent then SilentOnly(plan) + [w] else SilentOnly(plan)
  {
    hide Part;
    assert (plan + [w])[..|plan|] == plan;
    assert Parts(file, plan + [w]) == Parts(file, plan) + [Part(file, w)];
    FlattenMore(Parts(file, plan), Part(file, w));
  }

  lemma PlayTimeStep(file: File, plan: seq<Written>, w: Written)
    requires forall v | v in plan + [w] :: v.index < |file.frames| && file.frames[v.index].header.sampleRate > 0
    ensures PlayTime(file, plan + [w]) == PlayTime(file, plan) + Duration(file.frames[w.index].header)
  {
    assert (plan + [w])[..|plan|] == plan;
  }

  /** The ID3v2 tag and the planned frames are out, with that much silence. */
  ghost predicate WrittenSoFar(file: File, plan: seq<Written>, output: seq<byte>, silent: nat)
    requires WellFormed(file)
  {
    && (forall w | w in plan :: w.index < |file.frames|)
    && output == file.id3v2 + Flatten(Parts(file, plan)) && silent == PlayTime(file, SilentOnly(plan))
  }

  /** One frame appended to the output, as a carrier or a copy. */
  method AppendOne(file: File, output: seq<byte>, silent: nat, i: nat, asCarrier: bool, ghost plan: seq<Written>)
    returns (more: seq<byte>, time: nat)
    requires WellFormed(file) && i < |file.frames|
    requires WrittenSoFar(file, plan, output, silent)
    ensures WrittenSoFar(file, plan + [Written(i, asCarrier)], more, time)
  {
    hide Flatten, PlayTime, SilentOnly, SilentBytes, ParseHeader, Size, Duration;
    WriteStep(file, plan, Written(i, asCarrier));
    var frame := file.frames[i];
    var bytes := FrameBytes(file.data, frame);
    FramesHoldTheirHeaders(frame.header);
    time := silent;
    if asCarrier {
      PlayTimeStep(file, SilentOnly(plan), Written(i, asCarrier));
      bytes := SilentFrame(bytes, frame.header);
      time := time + Duration(frame.header);
    }
    more := output + bytes;
  }

  lemma StretchNone(plan: seq<Written>, from: nat, silent: bool)
    ensures plan + Stretch(from, from, silent) == plan
  {
  }

  lemma StretchStep(plan: seq<Written>, from: nat, i: nat, silent: bool)
    requires from <= i
    ensures plan + Stretch(from, i + 1, silent) == plan + Stretch(from, i, silent) + [Written(i, silent)]
  {
  }

  /** Frames [from, to) appended to the output. */
  method Append(file: File, output: seq<byte>, silent: nat, from: nat, to: nat, asCarriers: bool, ghost plan: seq<Written>)
    returns (more: seq<byte>, time: nat)
    requires WellFormed(file) && from <= to <= |file.frames|
    requires WrittenSoFar(file, plan, output, silent)
    ensures WrittenSoFar(file, plan + Stretch(from, to, asCarriers), more, time)
  {
    hide *;
    more, time := output, silent;
    StretchNone(plan, from, asCarriers);
    for i := from to to
      invariant WrittenSoFar(file, plan + Stretch(from, i, asCarriers), more, time)
    {
      hide *;
      more, time := AppendOne(file, more, time, i, asCarriers, plan + Stretch(from, i, asCarriers));
      StretchStep(plan, from, i, asCarriers);
    }
  }

  /** The cut file: the ID3v2 tag, the planned frames, the ID3v1 tag. */
  ghost function Output(file: File, kept: seq<Segment>): seq<byte>
    requires WellFormed(file) && Ordered(kept, |file.frames|)
  {
    file.id3v2 + Flatten(Parts(file, FilePlan(file, kept))) + file.id3v1
  }

  lemma PlanStep(file: File, kept: seq<Segment>, i: nat, first: nat)
    requires Ordered(kept, |file.frames|) && i < |kept|
    requires first == FirstCarrier(FrameSizes(file), Begins(file), KeptUpTo(kept[..i]), kept[i].start)
    ensures FilePlan(file, kept[..i + 1])
            == FilePlan(file, kept[..i]) + Stretch(first, kept[i].start, true) + Stretch(kept[i].start, kept[i].end, false)
  {
    hide FirstCarrier, Stretch;
    assert kept[..i + 1][..i] == kept[..i];
  }

  method Write(file: File, kept: seq<Segment>) returns (output: seq<byte>, silent: nat)
    requires WellFormed(file) && Ordered(kept, |file.frames|)
    ensures output == Output(file, kept)
    ensures silent == PlayTime(file, SilentOnly(FilePlan(file, kept)))
  {
    output, silent := file.id3v2, 0;
    var keptUpTo := 0;
    assert WrittenSoFar(file, FilePlan(file, []), output, silent);
    assert kept[..0] == [];
    for i := 0 to |kept|
      invariant keptUpTo == KeptUpTo(kept[..i])
      invariant WrittenSoFar(file, FilePlan(file, kept[..i]), output, silent)
    {
      hide WrittenSoFar, FilePlan, FirstCarrier, Stretch;
      ghost var plan := FilePlan(file, kept[..i]);
      var first := Carriers(FrameSizes(file), Begins(file), keptUpTo, kept[i].start);
      output, silent := Append(file, output, silent, first, kept[i].start, true, plan);
      output, silent := Append(file, output, silent, kept[i].start, kept[i].end, false, plan + Stretch(first, kept[i].start, true));
      PlanStep(file, kept, i, first);
      keptUpTo := kept[i].end;
    }
    assert kept[..|kept|] == kept;
    output := output + file.id3v1;
  }
}
