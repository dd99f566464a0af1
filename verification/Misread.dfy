/** Cut files that do not read back, and how to tell before writing them. */
module Misread {
  import opened Common
  import opened Mp3
  import opened Reservoir
  import opened Cut
  import opened RoundTrip

  /** The last 128 bytes of a frame begin like an ID3v1 tag. */
  predicate EndsLikeTag(bytes: seq<byte>) {
    |bytes| >= 128 && bytes[|bytes| - 128..|bytes| - 125] == TAG
  }

  lemma LastWritten(file: File, kept: seq<Segment>)
    requires Ordered(kept, |file.frames|) && kept != [] && kept[|kept| - 1].start < kept[|kept| - 1].end
    ensures var plan := FilePlan(file, kept);
            plan != [] && plan[|plan| - 1] == Written(kept[|kept| - 1].end - 1, false)
  {
    var n := |kept| - 1;
    var first := FirstCarrier(FrameSizes(file), Begins(file), KeptUpTo(kept[..n]), kept[n].start);
    PlanStep(file, kept, n, first);
    assert kept[..n + 1] == kept;
  }

  lemma {:induction false} FlatTail(parts: seq<seq<byte>>)
    requires parts != []
    ensures var last := parts[|parts| - 1];
            |Flatten(parts)| >= |last| && Flatten(parts)[|Flatten(parts)| - |last|..] == last
  {
    var n := |parts| - 1;
    assert parts == parts[..n] + [parts[n]];
    FlattenAppend(parts[..n], [parts[n]]);
    assert Flatten([parts[n]]) == parts[n] by {
      var one := [parts[n]];
      assert one[1..] == [] && Flatten(one) == one[0] + Flatten(one[1..]) == one[0];
    }
  }

  /** Without an ID3v1 tag, and with the last kept frame no shorter than one,
      the end of the output looks like a tag exactly when the end of that
      frame does. */
  lemma TailBeforeWriting(file: File, kept: seq<Segment>)
    requires WellFormed(file) && Ordered(kept, |file.frames|) && file.id3v1 == []
    requires kept != [] && kept[|kept| - 1].start < kept[|kept| - 1].end
    requires file.frames[kept[|kept| - 1].end - 1].size >= 128
    ensures TagTail(file.id3v2, Output(file, kept)) <==> EndsLikeTag(FrameBytes(file.data, file.frames[kept[|kept| - 1].end - 1]))
  {
    hide *;
    LastWritten(file, kept);
    var plan := FilePlan(file, kept);
    PartsAreThere(file, plan);
    var parts := Parts(file, plan);
    LastPart(file, plan);
    OutputWithoutTag(file, kept);
    FlatTailAgrees(file.id3v2, parts, Output(file, kept));
  }

  lemma FlatTailAgrees(id3v2: seq<byte>, parts: seq<seq<byte>>, out: seq<byte>)
    requires parts != [] && |parts[|parts| - 1]| >= 128 && out == id3v2 + Flatten(parts)
    ensures TagTail(id3v2, out) <==> EndsLikeTag(parts[|parts| - 1])
  {
    hide Flatten;
    var last := parts[|parts| - 1];
    FlatTail(parts);
    assert out[|out| - |last|..] == last;
    SameEnd(out, last);
    TailsAgree(id3v2, out, last);
  }

  lemma TailsAgree(id3v2: seq<byte>, out: seq<byte>, last: seq<byte>)
    requires |out| >= |id3v2| + |last| && |last| >= 128
    requires out[|out| - 128..|out| - 125] == last[|last| - 128..|last| - 125]
    ensures TagTail(id3v2, out) <==> EndsLikeTag(last)
  {
  }

  lemma LastPart(file: File, plan: seq<Written>)
    requires WellFormed(file) && plan != [] && (forall w | w in plan :: w.index < |file.frames|) && !plan[|plan| - 1].silent
    ensures Inside(file.data, file.frames[plan[|plan| - 1].index])
    ensures Parts(file, plan)[|plan| - 1] == FrameBytes(file.data, file.frames[plan[|plan| - 1].index])
    ensures |Parts(file, plan)[|plan| - 1]| == file.frames[plan[|plan| - 1].index].size
  {
    hide ParseHeader, Plausible, Size, FrameAt;
    assert Genuine(file.data, |file.data|, file.frames[plan[|plan| - 1].index]);
  }

  lemma PartsAreThere(file: File, plan: seq<Written>)
    requires WellFormed(file) && forall w | w in plan :: w.index < |file.frames|
    ensures forall w | w in plan :: Genuine(file.data, |file.data|, file.frames[w.index])
  {
    hide Genuine;
  }

  lemma OutputWithoutTag(file: File, kept: seq<Segment>)
    requires WellFormed(file) && Ordered(kept, |file.frames|) && file.id3v1 == []
    ensures Output(file, kept) == file.id3v2 + Flatten(Parts(file, FilePlan(file, kept)))
  {
    hide Flatten, Parts, FilePlan, Genuine;
  }

  lemma SameEnd(out: seq<byte>, last: seq<byte>)
    requires |out| >= |last| >= 128 && out[|out| - |last|..] == last
    ensures out[|out| - 128..|out| - 125] == last[|last| - 128..|last| - 125]
  {
  }

  // ---- files that are cut badly ----

  /** Whole frames of one Layer III stream laid end to end, with no tag to be
      found at the end and no info frame at the start. */
  ghost predicate Plain(parts: seq<seq<byte>>, headers: seq<Header>) {
    && AreParts(parts, headers) && parts != [] && (forall h | h in headers :: h.layer == 3)
    && !IsInfoFrame(parts[0], headers[0]) && !EndsLikeTag(Flatten(parts))
  }

  /** They are the file. */
  ghost predicate IsFileOf(file: File, parts: seq<seq<byte>>, headers: seq<Header>)
    requires |parts| == |headers|
  {
    && file.data == Flatten(parts) && file.id3v2 == [] && file.id3v1 == []
    && file.frames == LayOut(parts, headers, 0)
  }

  lemma PlainParses(parts: seq<seq<byte>>, headers: seq<Header>) returns (file: File)
    requires Plain(parts, headers)
    ensures ParseFile(Flatten(parts)) == Some(file) && IsFileOf(file, parts, headers) && WellFormed(file)
  {
    var data := Flatten(parts);
    assert IsPart(parts[0], headers[0]);
    FramesHoldTheirHeaders(headers[0]);
    assert data[0] == 0xFF && TagsEnd(data, 0) == 0;
    assert data[0..|data|] == data;
    hide ScanFrom, ParseHeader, IsInfoFrame, IsPart, Flatten, MainDataBegin;
    ScanFindsParts(data, |data|, 0, None, false, parts, headers);
    FirstPart(data, 0, |data|, parts);
    var frames := LayOut(parts, headers, 0);
    assert FrameBytes(data, frames[0]) == parts[0];
    file := ToFile(data, Scan(frames, 0, 0)).value;
    ParsedIsWellFormed(data);
  }

  lemma PlainFrame(file: File, parts: seq<seq<byte>>, headers: seq<Header>, i: nat)
    requires Plain(parts, headers) && IsFileOf(file, parts, headers) && WellFormed(file) && i < |parts|
    ensures file.frames[i].size == |parts[i]| && file.frames[i].header == headers[i]
    ensures file.frames[i].mainDataBegin == MainDataBegin(parts[i], headers[i])
    ensures Inside(file.data, file.frames[i]) && FrameBytes(file.data, file.frames[i]) == parts[i]
    ensures Part(file, Written(i, false)) == parts[i]
  {
    hide LayOut, Flatten, MainDataBegin, Genuine, TagsEnd, SameStream, IsInfoFrame, IsPart;
    LayOutAt(parts, headers, 0, i);
    PartInFlat(parts, i);
    assert headers[i] in headers;
    GenuineFits(file, i);
  }

  lemma GenuineFits(file: File, i: nat)
    requires WellFormed(file) && i < |file.frames|
    ensures Genuine(file.data, |file.data|, file.frames[i]) && Inside(file.data, file.frames[i])
  {
    hide ParseHeader, Size, MainDataBegin;
  }

  lemma {:induction false} FirstWritten(file: File, kept: seq<Segment>)
    requires WellFormed(file) && Ordered(kept, |file.frames|) && kept != [] && kept[0].start < kept[0].end
    requires Begins(file)[kept[0].start] == 0
    ensures FilePlan(file, kept) != [] && FilePlan(file, kept)[0] == Written(kept[0].start, false)
  {
    hide WellFormed;
    var n := |kept| - 1;
    var first := FirstCarrier(FrameSizes(file), Begins(file), KeptUpTo(kept[..n]), kept[n].start);
    PlanStep(file, kept, n, first);
    assert kept[..n + 1] == kept;
    if n == 0 {
      assert kept[..0] == [] && FilePlan(file, []) == [];
      assert first == kept[0].start;
    } else {
      FirstWritten(file, kept[..n]);
    }
  }

  /** However long the file: a cut that begins with a frame that looks like an
      info frame, and borrows nothing, does not read back. */
  lemma KeptInfoFrame(parts: seq<seq<byte>>, headers: seq<Header>, kept: seq<Segment>) returns (file: File)
    requires Plain(parts, headers) && Ordered(kept, |parts|) && kept != [] && kept[0].start < kept[0].end
    requires var i := kept[0].start; IsInfoFrame(parts[i], headers[i]) && MainDataBegin(parts[i], headers[i]) == 0
    ensures ParseFile(Flatten(parts)) == Some(file) && |file.frames| == |parts| && WellFormed(file)
    ensures FilePlan(file, kept) != [] && !ReadsBack(file, FilePlan(file, kept), ParseFile(Output(file, kept)))
  {
    hide Plain, IsInfoFrame, MainDataBegin, FilePlan, Part, ParseFile, WellFormed, Output, ReadsBack, Flatten, LayOut;
    assert |parts| == |headers| by {
      PlainSizes(parts, headers);
    }
    file := PlainParses(parts, headers);
    PlainFrame(file, parts, headers, kept[0].start);
    FirstWritten(file, kept);
    CutReadsBack(file, kept);
  }

  lemma PlainSizes(parts: seq<seq<byte>>, headers: seq<Header>)
    requires Plain(parts, headers)
    ensures |parts| == |headers|
  {
  }

  /** However long the file: a cut whose last frame is as long as a tag and
      ends like one does not read back. */
  lemma KeptTagTail(parts: seq<seq<byte>>, headers: seq<Header>, kept: seq<Segment>) returns (file: File)
    requires Plain(parts, headers) && Ordered(kept, |parts|) && kept != [] && kept[|kept| - 1].start < kept[|kept| - 1].end
    requires EndsLikeTag(parts[kept[|kept| - 1].end - 1])
    ensures ParseFile(Flatten(parts)) == Some(file) && |file.frames| == |parts| && WellFormed(file)
    ensures FilePlan(file, kept) != [] && !ReadsBack(file, FilePlan(file, kept), ParseFile(Output(file, kept)))
  {
    hide Plain, IsInfoFrame, MainDataBegin, FilePlan, Part, ParseFile, WellFormed, Output, ReadsBack, TagTail, Flatten, LayOut;
    assert |parts| == |headers| by {
      PlainSizes(parts, headers);
    }
    file := PlainParses(parts, headers);
    PlainFrame(file, parts, headers, kept[|kept| - 1].end - 1);
    LastWritten(file, kept);
    TailBeforeWriting(file, kept);
    CutReadsBack(file, kept);
  }

  // ---- there are such files, as long as one likes ----

  /** MPEG-2 Layer III at 22.05 kHz and 48 kbit/s: frames of 156 bytes. */
  const SOME_HEADER: Header := Header(MPEG2, 3, 48, 22050, false, false, true)

  lemma SomeFrame(bytes: seq<byte>)
    requires |bytes| == 156 && bytes[..4] == [0xFF, 0xF3, 0x60, 0xC0]
    ensures IsPart(bytes, SOME_HEADER)
  {
    assert bytes[0] == bytes[..4][0] && bytes[1] == bytes[..4][1] && bytes[2] == bytes[..4][2] && bytes[3] == bytes[..4][3];
  }

  lemma SomeFrames() returns (plain: seq<byte>, info: seq<byte>, tag: seq<byte>)
    ensures IsPart(plain, SOME_HEADER) && IsPart(info, SOME_HEADER) && IsPart(tag, SOME_HEADER)
    ensures |plain| == |info| == |tag| == 156
    ensures !IsInfoFrame(plain, SOME_HEADER) && !EndsLikeTag(plain)
    ensures IsInfoFrame(info, SOME_HEADER) && !EndsLikeTag(info) && MainDataBegin(info, SOME_HEADER) == 0
    ensures EndsLikeTag(tag)
  {
    plain := [0xFF, 0xF3, 0x60, 0xC0] + Zeros(152);
    info := [0xFF, 0xF3, 0x60, 0xC0] + Zeros(9) + INFO + Zeros(139);
    tag := [0xFF, 0xF3, 0x60, 0xC0] + Zeros(24) + TAG + Zeros(125);
    SomeFrame(plain);
    SomeFrame(info);
    SomeFrame(tag);
    assert plain[13..17][0] == 0 && plain[36..40][0] == 0 && plain[28..31][0] == 0;
    assert info[13..17] == INFO && info[28..31][0] == 0;
    assert tag[28..31] == TAG;
  }

  function Repeat<T>(x: T, n: nat): (s: seq<T>)
    ensures |s| == n && forall i | 0 <= i < n :: s[i] == x
  {
    seq(n, _ => x)
  }

  lemma AllOneStream(n: nat)
    ensures OneStream(Repeat(SOME_HEADER, n))
  {
  }

  lemma FrameAmong(plain: seq<byte>, odd: seq<byte>, n: nat, m: nat) returns (parts: seq<seq<byte>>, headers: seq<Header>)
    requires n > 0 && IsPart(plain, SOME_HEADER) && IsPart(odd, SOME_HEADER) && |plain| == |odd| == 156
    requires !IsInfoFrame(plain, SOME_HEADER) && !EndsLikeTag(plain) && (m == 0 ==> !EndsLikeTag(odd))
    ensures |parts| == n + 1 + m && Plain(parts, headers) && headers == Repeat(SOME_HEADER, n + 1 + m)
    ensures forall i | 0 <= i < |parts| :: parts[i] == if i == n then odd else plain
  {
    hide IsPart, IsInfoFrame, Flatten, SameStream;
    parts, headers := Repeat(plain, n) + [odd] + Repeat(plain, m), Repeat(SOME_HEADER, n + 1 + m);
    AllOneStream(n + 1 + m);
    FlatTail(parts);
    var last := parts[|parts| - 1];
    assert last == if m == 0 then odd else plain;
    SameEnd(Flatten(parts), last);
  }

  /** With any number of frames before and after, one that looks like an info frame. */
  lemma InfoFileExists(n: nat, m: nat) returns (parts: seq<seq<byte>>, headers: seq<Header>)
    requires n > 0
    ensures |parts| == n + 1 + m && Plain(parts, headers) && |headers| == |parts|
    ensures IsInfoFrame(parts[n], headers[n]) && MainDataBegin(parts[n], headers[n]) == 0
  {
    hide IsPart, IsInfoFrame, MainDataBegin, EndsLikeTag, Plain;
    var plain, info, _ := SomeFrames();
    parts, headers := FrameAmong(plain, info, n, m);
  }

  /** With any number of frames before and after, one that ends like a tag. */
  lemma TagFileExists(n: nat, m: nat) returns (parts: seq<seq<byte>>, headers: seq<Header>)
    requires n > 0 && m > 0
    ensures |parts| == n + 1 + m && Plain(parts, headers) && EndsLikeTag(parts[n])
  {
    hide IsPart, IsInfoFrame, MainDataBegin, EndsLikeTag, Plain;
    var plain, _, tag := SomeFrames();
    parts, headers := FrameAmong(plain, tag, n, m);
  }
}
