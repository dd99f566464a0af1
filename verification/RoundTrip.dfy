/** Reading a cut file back: the parser finds exactly the frames written. */
module RoundTrip {
  import opened Common
  import opened Mp3
  import opened Reservoir
  import opened Cut
  import HeaderBits

  /** part is one whole frame with header h. */
  predicate IsPart(part: seq<byte>, h: Header) {
    Plausible(h) && h.sampleRate > 0 && ParseHeader(part) == Some(h) && |part| == Size(h)
  }

  ghost predicate OneStream(headers: seq<Header>) {
    forall i, j | 0 <= i < |headers| && 0 <= j < |headers| ::
      headers[i].version == headers[j].version && headers[i].layer == headers[j].layer && headers[i].sampleRate == headers[j].sampleRate
  }

  ghost predicate AreParts(parts: seq<seq<byte>>, headers: seq<Header>) {
    |parts| == |headers| && OneStream(headers) && forall j | 0 <= j < |parts| :: IsPart(parts[j], headers[j])
  }

  /** The frames of some parts laid end to end from position on. */
  function LayOut(parts: seq<seq<byte>>, headers: seq<Header>, position: nat): (frames: seq<Frame>)
    requires |parts| == |headers|
    ensures |frames| == |parts|
    decreases |parts|
  {
    if parts == [] then []
    else
      [Frame(position, |parts[0]|, headers[0], if headers[0].layer == 3 then MainDataBegin(parts[0], headers[0]) else 0)]
      + LayOut(parts[1..], headers[1..], position + |parts[0]|)
  }

  /** A part at position parses as itself. */
  lemma PartParses(data: seq<byte>, position: nat, part: seq<byte>, h: Header)
    requires IsPart(part, h) && position + |part| <= |data| && data[position..position + |part|] == part
    ensures |part| >= 24 && ParseHeader(data[position..]) == Some(h)
    ensures FrameAt(data, position, h) == Frame(position, |part|, h, if h.layer == 3 then MainDataBegin(part, h) else 0)
  {
    hide ParseHeader, MainDataBegin;
    FramesHoldTheirHeaders(h);
    assert data[position..][..4] == part[..4];
    HeaderIsFourBytes(data[position..], part);
  }

  /** A part not yet in sync is believed: the next part, or the end, follows. */
  lemma PartTaken(data: seq<byte>, end: nat, position: nat, stream: Option<Header>, synced: bool,
                  parts: seq<seq<byte>>, headers: seq<Header>)
    requires position <= end <= |data| && parts != [] && AreParts(parts, headers)
    requires data[position..end] == Flatten(parts)
    requires stream.Some? ==> SameStream(headers[0], stream.value)
    ensures position + |parts[0]| <= end && |parts[0]| >= 24
    ensures StepAt(data, end, position, stream, synced) == Take(headers[0])
    ensures data[position + |parts[0]|..end] == Flatten(parts[1..])
    ensures FrameAt(data, position, headers[0]) == LayOut(parts, headers, position)[0]
  {
    hide ParseHeader, MainDataBegin, Size, Plausible;
    var part, rest := parts[0], parts[1..];
    var next := position + |part|;
    FirstPart(data, position, end, parts);
    PartParses(data, position, part, headers[0]);
    if rest != [] {
      FirstPart(data, next, end, rest);
      assert IsPart(parts[1], headers[1]) && rest[0] == parts[1];
      PartParses(data, next, parts[1], headers[1]);
      assert SameStream(headers[1], headers[0]);
    }
    assert Confirmed(data, end, next, headers[0]);
  }

  lemma FirstPart(data: seq<byte>, position: nat, end: nat, parts: seq<seq<byte>>)
    requires position <= end <= |data| && parts != [] && data[position..end] == Flatten(parts)
    ensures position + |parts[0]| <= end && data[position..position + |parts[0]|] == parts[0]
    ensures data[position + |parts[0]|..end] == Flatten(parts[1..])
  {
    var flat := parts[0] + Flatten(parts[1..]);
    assert data[position..end] == flat;
    assert flat[..|parts[0]|] == parts[0] && flat[|parts[0]|..] == Flatten(parts[1..]);
    assert data[position..end][..|parts[0]|] == data[position..position + |parts[0]|];
    assert data[position..end][|parts[0]|..] == data[position + |parts[0]|..end];
  }

  /** Parts laid end to end are found one by one, with nothing skipped. */
  lemma {:induction false} ScanFindsParts(data: seq<byte>, end: nat, position: nat, stream: Option<Header>, synced: bool,
                                          parts: seq<seq<byte>>, headers: seq<Header>)
    requires position <= end <= |data| && AreParts(parts, headers)
    requires data[position..end] == Flatten(parts)
    requires stream.Some? && headers != [] ==> SameStream(headers[0], stream.value)
    ensures ScanFrom(data, end, position, stream, synced) == Scan(LayOut(parts, headers, position), 0, 0)
    decreases |parts|
  {
    hide StepAt, MainDataBegin, Size, Plausible, ParseHeader;
    if parts == [] {
      assert position == end;
    } else {
      PartTaken(data, end, position, stream, synced, parts, headers);
      var next := if stream.Some? then stream else Some(headers[0]);
      assert IsPart(parts[0], headers[0]);
      assert headers[1..] != [] ==> SameStream(headers[1], headers[0]);
      assert AreParts(parts[1..], headers[1..]);
      ScanFindsParts(data, end, position + |parts[0]|, next, true, parts[1..], headers[1..]);
    }
  }

  // ---- the tags ----

  /** The tags at the start of one file, followed by a frame instead of the
      rest of that file, still end where they did. */
  lemma {:induction false} TagsSurvive(data: seq<byte>, out: seq<byte>, position: nat, end: nat)
    requires position <= end <= |data| && TagsEnd(data, position) == end
    requires end < |out| && out[..end] == data[..end] && out[end] == 0xFF
    ensures TagsEnd(out, position) == end
    decreases end - position
  {
    hide Syncsafe;
    if position == end {
      if |out| - end >= 10 { assert out[end..end + 3][0] == 0xFF; }
      assert TagLength(out, end) == 0;
    } else {
      var n := TagLength(data, position);
      assert n > 0 && position + n <= end;
      assert data[position..position + 3] == data[..end][position..position + 3] == out[position..position + 3];
      assert data[position + 6..position + 10] == data[..end][position + 6..position + 10] == out[position + 6..position + 10];
      assert data[position + 5] == data[..end][position + 5] == out[position + 5];
      assert TagLength(out, position) == n;
      TagsSurvive(data, out, position + n, end);
    }
  }

  // ---- a written file ----

  /** The headers of the planned frames. */
  function Headers(file: File, plan: seq<Written>): (headers: seq<Header>)
    requires forall w | w in plan :: w.index < |file.frames|
    ensures |headers| == |plan|
  {
    seq(|plan|, j requires 0 <= j < |plan| => file.frames[plan[j].index].header)
  }

  lemma WrittenIsPart(file: File, w: Written)
    requires w.index < |file.frames| && Genuine(file.data, |file.data|, file.frames[w.index])
    ensures IsPart(Part(file, w), file.frames[w.index].header)
  {
    hide ParseHeader, Plausible, Crc, RegisterBits, ByteOf, Zeros, MainDataBegin;
    var frame := file.frames[w.index];
    FramesHoldTheirHeaders(frame.header);
    var bytes := FrameBytes(file.data, frame);
    assert bytes[..4] == file.data[frame.offset..][..4];
    HeaderIsFourBytes(bytes, file.data[frame.offset..]);
    SilentKeepsHeader(bytes, frame.header);
    HeaderIsFourBytes(SilentBytes(bytes, frame.header), bytes);
  }

  lemma SilentKeepsHeader(bytes: seq<byte>, h: Header)
    requires |bytes| >= 6
    ensures SilentBytes(bytes, h)[..4] == bytes[..4]
  {
    hide Crc, RegisterBits, ByteOf;
    assert Cleared(bytes, h)[..4] == bytes[..4];
  }

  lemma WrittenAreParts(file: File, plan: seq<Written>)
    requires WellFormed(file) && forall w | w in plan :: w.index < |file.frames|
    ensures AreParts(Parts(file, plan), Headers(file, plan))
  {
    hide IsPart;
    forall j | 0 <= j < |plan|
      ensures IsPart(Parts(file, plan)[j], Headers(file, plan)[j])
    {
      WrittenIsPart(file, plan[j]);
    }
  }

  /** The cut file reads back: the same tags, no info frame, nothing skipped or
      cut off, and the planned frames one after another. */
  ghost predicate ReadsBack(file: File, plan: seq<Written>, parsed: Option<File>)
    requires WellFormed(file) && forall w | w in plan :: w.index < |file.frames|
  {
    && parsed.Some? && parsed.value.info.None?
    && parsed.value.id3v2 == file.id3v2 && parsed.value.id3v1 == file.id3v1
    && parsed.value.skipped == 0 && parsed.value.truncated == 0
    && parsed.value.frames == LayOut(Parts(file, plan), Headers(file, plan), |file.id3v2|)
  }

  /** The last 128 bytes of the output's audio look like an ID3v1 tag. */
  predicate TagTail(id3v2: seq<byte>, out: seq<byte>) {
    |out| - |id3v2| >= 128 && out[|out| - 128..|out| - 125] == TAG
  }

  lemma FirstByte(file: File, plan: seq<Written>)
    requires WellFormed(file) && plan != [] && forall w | w in plan :: w.index < |file.frames|
    ensures |Flatten(Parts(file, plan))| >= 24 && Flatten(Parts(file, plan))[0] == 0xFF
  {
    hide Part;
    WrittenIsPart(file, plan[0]);
    var parts := Parts(file, plan);
    FramesHoldTheirHeaders(file.frames[plan[0].index].header);
    assert parts[0] == Part(file, plan[0]);
    assert Flatten(parts) == parts[0] + Flatten(parts[1..]);
  }

  /** Where the tags of the output end. */
  lemma OutputTags(file: File, plan: seq<Written>)
    requires WellFormed(file) && plan != [] && forall w | w in plan :: w.index < |file.frames|
    ensures TagsEnd(file.id3v2 + Flatten(Parts(file, plan)) + file.id3v1, 0) == |file.id3v2|
  {
    FirstByte(file, plan);
    hide TagLength, TagsEnd, Genuine, Parts, Flatten;
    var flat := Flatten(Parts(file, plan));
    var out := file.id3v2 + flat + file.id3v1;
    var end := TagsEnd(file.data, 0);
    assert |file.id3v2| == end && out[..end] == file.data[..end] && out[end] == flat[0];
    TagsSurvive(file.data, out, 0, end);
  }

  /** The scan of a cut file whose tags are found where they were written. */
  lemma OutputScans(file: File, plan: seq<Written>)
    requires WellFormed(file) && plan != [] && forall w | w in plan :: w.index < |file.frames|
    ensures var out := file.id3v2 + Flatten(Parts(file, plan)) + file.id3v1;
            var start, end := |file.id3v2|, |out| - |file.id3v1|;
            var frames := LayOut(Parts(file, plan), Headers(file, plan), start);
            && ScanFrom(out, end, start, None, false) == Scan(frames, 0, 0)
            && Inside(out, frames[0]) && FrameBytes(out, frames[0]) == Part(file, plan[0])
            && frames[0].header == file.frames[plan[0].index].header
  {
    hide Genuine, Part, ScanFrom, IsPart;
    var parts, headers := Parts(file, plan), Headers(file, plan);
    var out := file.id3v2 + Flatten(parts) + file.id3v1;
    var start, end := |file.id3v2|, |out| - |file.id3v1|;
    assert out[start..end] == Flatten(parts);
    WrittenAreParts(file, plan);
    ScanFindsParts(out, end, start, None, false, parts, headers);
    FirstPart(out, start, end, parts);
  }

  /** Exactly when a cut file reads back: its first frame must not look like an
      info frame, and when it has no ID3v1 tag its last bytes not like one. */
  lemma CutReadsBack(file: File, kept: seq<Segment>)
    requires WellFormed(file) && Ordered(kept, |file.frames|) && FilePlan(file, kept) != []
    ensures var plan, out := FilePlan(file, kept), Output(file, kept);
            ReadsBack(file, plan, ParseFile(out))
            <==> !IsInfoFrame(Part(file, plan[0]), file.frames[plan[0].index].header)
                 && (file.id3v1 != [] || !TagTail(file.id3v2, out))
  {
    hide ScanFrom, IsInfoFrame, Part, Parts, Flatten, Genuine, TagLength, TagsEnd, FilePlan;
    var plan, out := FilePlan(file, kept), Output(file, kept);
    var start, end := |file.id3v2|, |out| - |file.id3v1|;
    OutputTags(file, plan);
    OutputScans(file, plan);
    AudioEndOf(file, out);
    var frames := LayOut(Parts(file, plan), Headers(file, plan), start);
    assert out[..start] == file.id3v2 && out[end..] == file.id3v1;
    if file.id3v1 != [] || !TagTail(file.id3v2, out) {
      assert ParseFile(out) == ToFile(out, Scan(frames, 0, 0));
    }
  }

  /** Where the audio of the output ends: before its own tag, if it has one,
      or before the bytes mistaken for one. */
  lemma AudioEndOf(file: File, out: seq<byte>)
    requires file.id3v1 == [] || (|file.id3v1| == 128 && file.id3v1[..3] == TAG)
    requires |out| >= |file.id3v2| + |file.id3v1| && out[|out| - |file.id3v1|..] == file.id3v1
    requires TagsEnd(out, 0) == |file.id3v2|
    ensures file.id3v1 != [] || !TagTail(file.id3v2, out) ==> AudioEnd(out) == |out| - |file.id3v1|
    ensures file.id3v1 == [] && TagTail(file.id3v2, out) ==> AudioEnd(out) == |out| - 128
  {
    hide TagsEnd;
    if file.id3v1 != [] {
      assert out[|out| - 128..|out| - 125] == out[|out| - 128..][..3];
    }
  }

  // ---- what the frames read back are ----

  lemma {:induction false} LayOutAt(parts: seq<seq<byte>>, headers: seq<Header>, position: nat, j: nat)
    requires |parts| == |headers| && j < |parts|
    ensures var f := LayOut(parts, headers, position)[j];
            && f.offset == position + |Flatten(parts[..j])| && f.size == |parts[j]| && f.header == headers[j]
            && f.mainDataBegin == if headers[j].layer == 3 then MainDataBegin(parts[j], headers[j]) else 0
    decreases |parts|
  {
    hide MainDataBegin;
    if j == 0 {
      assert parts[..0] == [];
    } else {
      LayOutAt(parts[1..], headers[1..], position + |parts[0]|, j - 1);
      assert parts[..j] == [parts[0]] + parts[1..][..j - 1];
      assert parts[..j][1..] == parts[1..][..j - 1];
    }
  }

  /** The audio data a frame carries itself. */
  function MainData(bytes: seq<byte>, h: Header): (data: seq<byte>) {
    if MainDataOffset(h) <= |bytes| then bytes[MainDataOffset(h)..] else []
  }

  function HomeData(file: File): (data: seq<seq<byte>>)
    requires WellFormed(file)
    ensures |data| == |file.frames|
  {
    seq(|file.frames|, i requires 0 <= i < |file.frames| => MainData(FrameBytes(file.data, file.frames[i]), file.frames[i].header))
  }

  /** A written frame: the home frame's header and audio data; its bytes and
      back pointer too when copied, borrowing nothing when silent. */
  lemma WrittenFrame(file: File, w: Written)
    requires WellFormed(file) && w.index < |file.frames|
    ensures var h := file.frames[w.index].header;
            && MainData(Part(file, w), h) == HomeData(file)[w.index]
            && (if h.layer == 3 then MainDataBegin(Part(file, w), h) else 0) == (if w.silent then 0 else file.frames[w.index].mainDataBegin)
  {
    hide ParseHeader, Crc, RegisterBits, ByteOf, Zeros;
    var frame := file.frames[w.index];
    var bytes := FrameBytes(file.data, frame);
    FramesHoldTheirHeaders(frame.header);
    if w.silent && |bytes| >= MainDataOffset(frame.header) {
      SilentKeepsData(bytes, frame.header);
    }
    if !w.silent {
      assert frame == FrameAt(file.data, frame.offset, frame.header);
    }
  }

  lemma HeaderReadBack(file: File, plan: seq<Written>, frames: seq<Frame>, j: nat)
    requires WellFormed(file) && (forall w | w in plan :: w.index < |file.frames|) && j < |plan|
    requires frames == LayOut(Parts(file, plan), Headers(file, plan), |file.id3v2|)
    ensures var w := plan[j];
            var f, home := frames[j], file.frames[w.index];
            && f.header == home.header && f.size == home.size
            && f.mainDataBegin == (if w.silent then 0 else home.mainDataBegin)
  {
    hide LayOut, Part, MainData, HomeData, Genuine, MainDataBegin, TagsEnd, SameStream;
    LayOutAt(Parts(file, plan), Headers(file, plan), |file.id3v2|, j);
    WrittenFrame(file, plan[j]);
  }

  lemma BytesReadBack(file: File, plan: seq<Written>, frames: seq<Frame>, out: seq<byte>, j: nat)
    requires WellFormed(file) && (forall w | w in plan :: w.index < |file.frames|) && j < |plan|
    requires frames == LayOut(Parts(file, plan), Headers(file, plan), |file.id3v2|)
    requires out == file.id3v2 + Flatten(Parts(file, plan)) + file.id3v1
    ensures Inside(out, frames[j]) && FrameBytes(out, frames[j]) == Part(file, plan[j])
  {
    hide LayOut, Part, Flatten, Genuine, MainDataBegin, TagsEnd, SameStream;
    var parts := Parts(file, plan);
    LayOutAt(parts, Headers(file, plan), |file.id3v2|, j);
    PartInFlat(parts, j);
    var from := |Flatten(parts[..j])|;
    assert out[|file.id3v2| + from..|file.id3v2| + from + |parts[j]|] == Flatten(parts)[from..from + |parts[j]|];
  }

  lemma ParsedIsOutput(file: File, kept: seq<Segment>, parsed: File)
    requires WellFormed(file) && Ordered(kept, |file.frames|)
    requires ParseFile(Output(file, kept)) == Some(parsed) && ReadsBack(file, FilePlan(file, kept), Some(parsed))
    ensures var plan := FilePlan(file, kept);
            && parsed.data == file.id3v2 + Flatten(Parts(file, plan)) + file.id3v1
            && parsed.frames == LayOut(Parts(file, plan), Headers(file, plan), |file.id3v2|)
  {
    hide FilePlan, Parts, Part, Flatten, Genuine, LayOut, ScanFrom, TagsEnd, AudioEnd, IsInfoFrame, SameStream;
  }

  /** A genuine Layer III frame borrows the number of bytes its bits spell. */
  lemma BorrowsWhatItSpells(data: seq<byte>, f: Frame)
    requires Genuine(data, |data|, f) && f.header.layer == 3
    ensures Inside(data, f) && f.mainDataBegin == HeaderBits.Spelled(FrameBytes(data, f), f.header)
  {
    hide ParseHeader, HeaderBits.Spelled;
    FramesHoldTheirHeaders(f.header);
    HeaderBits.BackPointer(FrameBytes(data, f), f.header);
  }

  /** A copy is the home frame's bytes; a carrier's are too, but for those
      between its header and its audio data. */
  lemma PartIsCopy(file: File, w: Written)
    requires WellFormed(file) && w.index < |file.frames|
    ensures var home := file.frames[w.index];
            && Inside(file.data, home)
            && (!w.silent ==> Part(file, w) == FrameBytes(file.data, home))
            && (home.header.layer == 3 ==>
                  && home.size >= MainDataOffset(home.header)
                  && Part(file, w)[..4] == FrameBytes(file.data, home)[..4]
                  && Part(file, w)[MainDataOffset(home.header)..] == FrameBytes(file.data, home)[MainDataOffset(home.header)..])
  {
    hide ParseHeader, SilentBytes, Size;
    var home := file.frames[w.index];
    FramesHoldTheirHeaders(home.header);
    if w.silent && home.header.layer == 3 {
      SilentKeepsData(FrameBytes(file.data, home), home.header);
    }
  }

  /** Every frame read back is the one written there, byte for byte. */
  lemma FrameReadBack(file: File, kept: seq<Segment>, parsed: File, j: nat)
    requires WellFormed(file) && Ordered(kept, |file.frames|) && j < |FilePlan(file, kept)|
    requires ParseFile(Output(file, kept)) == Some(parsed) && ReadsBack(file, FilePlan(file, kept), Some(parsed))
    ensures var w := FilePlan(file, kept)[j];
            var f, home := parsed.frames[j], file.frames[w.index];
            && |parsed.frames| == |FilePlan(file, kept)|
            && f.header == home.header && f.size == home.size
            && f.mainDataBegin == (if w.silent then 0 else home.mainDataBegin)
            && Inside(parsed.data, f) && FrameBytes(parsed.data, f) == Part(file, w)
            && Inside(file.data, home) && (!w.silent ==> FrameBytes(parsed.data, f) == FrameBytes(file.data, home))
  {
    hide *;
    PartIsCopy(file, FilePlan(file, kept)[j]);
    ParsedIsOutput(file, kept, parsed);
    HeaderReadBack(file, FilePlan(file, kept), parsed.frames, j);
    BytesReadBack(file, FilePlan(file, kept), parsed.frames, parsed.data, j);
  }

  lemma PartInFlat(parts: seq<seq<byte>>, j: nat)
    requires j < |parts|
    ensures var from := |Flatten(parts[..j])|;
            from + |parts[j]| <= |Flatten(parts)| && Flatten(parts)[from..from + |parts[j]|] == parts[j]
  {
    var rest := parts[j..];
    assert parts == parts[..j] + rest;
    FlattenAppend(parts[..j], rest);
    assert Flatten(rest) == parts[j] + Flatten(rest[1..]);
  }

  /** The audio data of a file's frames, in order. */
  function DataOf(file: File): (data: seq<seq<byte>>)
    requires forall f | f in file.frames :: Inside(file.data, f)
    ensures |data| == |file.frames|
  {
    seq(|file.frames|, i requires 0 <= i < |file.frames| =>
      MainData(FrameBytes(file.data, file.frames[i]), file.frames[i].header))
  }

  lemma StreamReadBack(file: File, kept: seq<Segment>, parsed: File)
    requires WellFormed(file) && Ordered(kept, |file.frames|)
    requires ParseFile(Output(file, kept)) == Some(parsed) && ReadsBack(file, FilePlan(file, kept), Some(parsed))
    ensures forall f | f in parsed.frames :: Inside(parsed.data, f)
    ensures DataOf(parsed) == OutData(HomeData(file), FilePlan(file, kept))
    ensures Sizes(HomeData(file)) == FrameSizes(file)
  {
    hide FilePlan, Part, IsInfoFrame, ScanFrom, MainDataBegin, TagsEnd, MainData;
    var plan := FilePlan(file, kept);
    assert |parsed.frames| == |plan|;
    forall j | 0 <= j < |plan|
      ensures Inside(parsed.data, parsed.frames[j])
      ensures MainData(FrameBytes(parsed.data, parsed.frames[j]), parsed.frames[j].header) == HomeData(file)[plan[j].index]
    {
      FrameReadBack(file, kept, parsed, j);
      WrittenFrame(file, plan[j]);
    }
    forall i | 0 <= i < |file.frames|
      ensures |HomeData(file)[i]| == MainDataSize(file.frames[i])
    {
      DataLength(FrameBytes(file.data, file.frames[i]), file.frames[i]);
    }
  }

  lemma DataLength(bytes: seq<byte>, frame: Frame)
    requires |bytes| == frame.size
    ensures |MainData(bytes, frame.header)| == MainDataSize(frame)
  {
  }

  /** End to end: reading the cut file back, every frame copied from the home
      file finds before it, in the stream of audio data it is decoded from,
      exactly the bytes it borrowed there. */
  lemma CutDecodes(file: File, kept: seq<Segment>, parsed: File, j: nat)
    requires WellFormed(file) && Ordered(kept, |file.frames|) && NeverBackwards(FrameSizes(file), Begins(file))
    requires ParseFile(Output(file, kept)) == Some(parsed) && ReadsBack(file, FilePlan(file, kept), Some(parsed))
    requires j < |FilePlan(file, kept)| && !FilePlan(file, kept)[j].silent
    ensures var k := FilePlan(file, kept)[j].index;
            var n := parsed.frames[j].mainDataBegin;
            && n == file.frames[k].mainDataBegin
            && Inside(file.data, file.frames[k])
            && (file.frames[k].header.layer == 3 ==> n == HeaderBits.Spelled(FrameBytes(file.data, file.frames[k]), file.frames[k].header))
            && (n <= |Flatten(HomeData(file)[..k])| ==>
                  && (forall f | f in parsed.frames :: Inside(parsed.data, f))
                  && n <= |Flatten(DataOf(parsed)[..j])|
                  && Last(Flatten(DataOf(parsed)[..j]), n) == Last(Flatten(HomeData(file)[..k]), n))
  {
    assert Genuine(file.data, |file.data|, file.frames[FilePlan(file, kept)[j].index]);
    hide Genuine, HeaderBits.Spelled;
    if file.frames[FilePlan(file, kept)[j].index].header.layer == 3 {
      BorrowsWhatItSpells(file.data, file.frames[FilePlan(file, kept)[j].index]);
    }
    hide ParseFile, ReadsBack, Plan, WellFormed, HomeData, DataOf, Flatten, NeverBackwards;
    var k := FilePlan(file, kept)[j].index;
    FrameReadBack(file, kept, parsed, j);
    StreamReadBack(file, kept, parsed);
    if parsed.frames[j].mainDataBegin <= |Flatten(HomeData(file)[..k])| {
      BorrowedBytesSurvive(HomeData(file), Begins(file), kept, j);
    }
  }

  // ---- how long it plays ----

  function TimeOf(frames: seq<Frame>): (t: nat)
    requires forall f | f in frames :: f.header.sampleRate > 0
  {
    if frames == [] then 0 else TimeOf(frames[..|frames| - 1]) + Duration(frames[|frames| - 1].header)
  }

  lemma {:induction false} SameTime(file: File, plan: seq<Written>, frames: seq<Frame>)
    requires forall w | w in plan :: w.index < |file.frames| && file.frames[w.index].header.sampleRate > 0
    requires |frames| == |plan| && forall j | 0 <= j < |plan| :: frames[j].header == file.frames[plan[j].index].header
    ensures forall f | f in frames :: f.header.sampleRate > 0
    ensures TimeOf(frames) == PlayTime(file, plan)
  {
    hide Duration;
    if plan != [] {
      SameTime(file, plan[..|plan| - 1], frames[..|frames| - 1]);
    }
  }

  lemma {:induction false} TimeJoins(file: File, a: seq<Written>, b: seq<Written>)
    requires forall w | w in a + b :: w.index < |file.frames| && file.frames[w.index].header.sampleRate > 0
    ensures PlayTime(file, a + b) == PlayTime(file, a) + PlayTime(file, b)
    ensures SilentOnly(a + b) == SilentOnly(a) + SilentOnly(b)
    decreases |b|
  {
    hide Duration;
    if b == [] {
      assert a + b == a;
    } else {
      var shorter := b[..|b| - 1];
      assert (a + b)[..|a + b| - 1] == a + shorter;
      TimeJoins(file, a, shorter);
    }
  }

  lemma {:induction false} SilentStretch(from: nat, to: nat, silent: bool)
    requires from <= to
    ensures SilentOnly(Stretch(from, to, silent)) == if silent then Stretch(from, to, silent) else []
    decreases (to - from)
  {
    var s := Stretch(from, to, silent);
    if from < to {
      assert s[..|s| - 1] == Stretch(from, to - 1, silent);
      SilentStretch(from, to - 1, silent);
    }
  }

  /** Each segment's duration is that of its frames. */
  ghost predicate Timed(file: File, kept: seq<Segment>)
    requires WellFormed(file) && Ordered(kept, |file.frames|)
  {
    forall i | 0 <= i < |kept| :: kept[i].duration == PlayTime(file, Stretch(kept[i].start, kept[i].end, false))
  }

  lemma {:induction false} PlanTime(file: File, kept: seq<Segment>)
    requires WellFormed(file) && Ordered(kept, |file.frames|) && Timed(file, kept)
    ensures PlayTime(file, FilePlan(file, kept)) == Played(kept) + PlayTime(file, SilentOnly(FilePlan(file, kept)))
  {
    hide Duration, FirstCarrier, Stretch, Genuine, SameStream, PlayTime, SilentOnly, FilePlan;
    if kept == [] {
      NothingPlanned(file);
    } else {
      var i := |kept| - 1;
      PlanTime(file, kept[..i]);
      assert kept[..i + 1] == kept;
      var first := FirstCarrier(FrameSizes(file), Begins(file), KeptUpTo(kept[..i]), kept[i].start);
      PlanStep(file, kept, i, first);
      RatesAreKnown(file);
      SegmentTime(file, FilePlan(file, kept[..i]), first, kept[i].start, kept[i].end);
    }
  }

  lemma RatesAreKnown(file: File)
    requires WellFormed(file)
    ensures forall f | f in file.frames :: f.header.sampleRate > 0
  {
    forall f | f in file.frames
      ensures f.header.sampleRate > 0
    {
      var i :| 0 <= i < |file.frames| && file.frames[i] == f;
      assert Genuine(file.data, |file.data|, file.frames[i]);
    }
  }

  lemma NothingPlanned(file: File)
    requires WellFormed(file)
    ensures FilePlan(file, []) == [] && PlayTime(file, []) == 0 && SilentOnly([]) == []
  {
    hide Genuine, SameStream;
  }

  /** A segment adds what its frames play to what sounds, and its carriers to the silence. */
  lemma SegmentTime(file: File, before: seq<Written>, first: nat, start: nat, end: nat)
    requires forall f | f in file.frames :: f.header.sampleRate > 0
    requires (forall w | w in before :: w.index < |file.frames|) && first <= start <= end <= |file.frames|
    ensures var copies := Stretch(start, end, false);
            var after := before + Stretch(first, start, true) + copies;
            PlayTime(file, after) - PlayTime(file, SilentOnly(after))
            == PlayTime(file, before) - PlayTime(file, SilentOnly(before)) + PlayTime(file, copies)
  {
    hide Duration, PlayTime, SilentOnly;
    var carriers, copies := Stretch(first, start, true), Stretch(start, end, false);
    TimeJoins(file, before + carriers, copies);
    TimeJoins(file, before, carriers);
    SilentStretch(first, start, true);
    SilentStretch(start, end, false);
    TimeJoins(file, SilentOnly(before), carriers);
    assert SilentOnly(before + carriers) + [] == SilentOnly(before + carriers);
  }

  /** The cut file plays as long as the diff says: what it kept, and the silence. */
  lemma DurationReadBack(file: File, kept: seq<Segment>, parsed: File)
    requires WellFormed(file) && Ordered(kept, |file.frames|) && Timed(file, kept)
    requires ParseFile(Output(file, kept)) == Some(parsed) && ReadsBack(file, FilePlan(file, kept), Some(parsed))
    ensures forall f | f in parsed.frames :: f.header.sampleRate > 0
    ensures TimeOf(parsed.frames) == Played(kept) + PlayTime(file, SilentOnly(FilePlan(file, kept)))
  {
    hide FilePlan, ParseFile, PlayTime, SilentOnly, TimeOf, Part;
    var plan := FilePlan(file, kept);
    assert |parsed.frames| == |plan|;
    forall j | 0 <= j < |plan|
      ensures parsed.frames[j].header == file.frames[plan[j].index].header
    {
      FrameReadBack(file, kept, parsed, j);
    }
    SameTime(file, plan, parsed.frames);
    PlanTime(file, kept);
  }

  /** A file the parser accepts is as well-formed as the cutter needs. */
  lemma ParsedIsWellFormed(data: seq<byte>)
    requires ParseFile(data).Some?
    ensures WellFormed(ParseFile(data).value) && ParseFile(data).value.frames != []
  {
    hide ParseHeader, Size, MainDataBegin, IsInfoFrame, ScanFrom, TagLength, TagsEnd, Plausible;
    EveryByteCounted(data);
    var file := ParseFile(data).value;
    var all := (if file.info.Some? then [file.info.value] else []) + file.frames;
    AllGenuine(data, AudioEnd(data), TagsEnd(data, 0), None, false, all);
    forall i | 0 <= i < |file.frames|
      ensures Genuine(file.data, |file.data|, file.frames[i]) && SameStream(file.frames[i].header, all[0].header)
    {
      assert file.frames[i] == all[if file.info.Some? then i + 1 else i];
    }
    if file.id3v1 != [] {
      assert file.id3v1[..3] == data[|data| - 128..|data| - 125];
    }
  }

  lemma {:induction false} AllGenuine(data: seq<byte>, end: nat, position: nat, stream: Option<Header>, synced: bool, frames: seq<Frame>)
    requires end <= |data| && Mp3.InFile(data, end, position, stream, synced, frames)
    ensures forall i | 0 <= i < |frames| :: Genuine(data, |data|, frames[i])
    ensures forall i | 0 <= i < |frames| :: SameStream(frames[i].header, if stream.Some? then stream.value else frames[0].header)
    decreases |frames|
  {
    hide ParseHeader, Size, MainDataBegin, Plausible, Confirmed;
    if frames != [] {
      var f := frames[0];
      AllGenuine(data, end, f.offset + f.size, if stream.Some? then stream else Some(f.header), true, frames[1..]);
      assert forall i | 1 <= i < |frames| :: frames[i] == frames[1..][i - 1];
    }
  }
}
