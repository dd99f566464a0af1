/** What the scan makes of a file: no frame is believed that stands alone, and
    junk before the frames and half a frame after them are told from them. */
module Scanning {
  import opened Common
  import opened Mp3
  import opened Reservoir
  import opened RoundTrip

  // ---- no frame stands alone ----

  /** Right after the frame before it. */
  ghost predicate Follows(frames: seq<Frame>, i: nat) {
    0 < i < |frames| && frames[i].offset == frames[i - 1].offset + frames[i - 1].size
  }

  lemma SameStreamAs(a: Header, b: Header, c: Header)
    requires SameStream(a, b) && SameStream(b, c)
    ensures SameStream(a, c)
  {
  }

  /** A frame confirmed by another is followed by it in the scan. */
  lemma ConfirmedIsFollowed(data: seq<byte>, end: nat, next: nat, h: Header, stream: Header)
    requires next < end <= |data| && Confirmed(data, end, next, h) && SameStream(h, stream)
    ensures var rest := ScanFrom(data, end, next, Some(stream), true).frames; rest != [] && rest[0].offset == next
  {
    hide ParseHeader, MainDataBegin;
    var following := ParseHeader(data[next..]).value;
    SameStreamAs(following, h, stream);
    assert StepAt(data, end, next, Some(stream), true) == Take(following);
  }

  /** Every frame found follows the one before it while in sync, or ends the
      audio, or has the next one found right after it. */
  lemma {:induction false} NoFrameAlone(data: seq<byte>, end: nat, position: nat, stream: Option<Header>, synced: bool, i: nat)
    requires position <= end <= |data| && i < |ScanFrom(data, end, position, stream, synced).frames|
    ensures var frames := ScanFrom(data, end, position, stream, synced).frames;
            || (i == 0 && synced && frames[0].offset == position)
            || Follows(frames, i) || frames[i].offset + frames[i].size == end || Follows(frames, i + 1)
    decreases end - position
  {
    hide ParseHeader, Size, MainDataBegin, Confirmed;
    match StepAt(data, end, position, stream, synced)
    case Skip => NoFrameAlone(data, end, position + 1, stream, false, i);
    case Take(h) =>
      var next, at := if stream.Some? then stream else Some(h), position + Size(h);
      var rest := ScanFrom(data, end, at, next, true).frames;
      var frames := ScanFrom(data, end, position, stream, synced).frames;
      assert frames == [FrameAt(data, position, h)] + rest;
      if i > 0 {
        NoFrameAlone(data, end, at, next, true, i - 1);
        assert Follows(rest, i - 1) ==> Follows(frames, i);
        assert Follows(rest, i) ==> Follows(frames, i + 1);
      } else if !synced && at < end {
        TakenIsConfirmed(data, end, position, stream, h);
        ConfirmedIsFollowed(data, end, at, h, next.value);
      }
  }

  lemma TakenIsConfirmed(data: seq<byte>, end: nat, position: nat, stream: Option<Header>, h: Header)
    requires position + 4 <= end <= |data| && StepAt(data, end, position, stream, false) == Take(h)
    ensures position + Size(h) <= end && Confirmed(data, end, position + Size(h), h)
    ensures stream.Some? ==> SameStream(h, stream.value)
  {
    hide ParseHeader, Size;
  }

  /** In a parsed file: a frame that neither follows another nor is followed by
      one ends the audio. */
  lemma ParsedStandTogether(data: seq<byte>, i: nat)
    requires ParseFile(data).Some?
    requires i < |(if ParseFile(data).value.info.Some? then [ParseFile(data).value.info.value] else []) + ParseFile(data).value.frames|
    ensures var file := ParseFile(data).value;
            var all := (if file.info.Some? then [file.info.value] else []) + file.frames;
            Follows(all, i) || Follows(all, i + 1) || all[i].offset + all[i].size == |data| - |file.id3v1|
  {
    hide ParseHeader, Size, MainDataBegin, IsInfoFrame, ScanFrom, TagLength, TagsEnd, Follows;
    var file := ParseFile(data).value;
    var scan := ScanFrom(data, AudioEnd(data), TagsEnd(data, 0), None, false);
    var all := (if file.info.Some? then [file.info.value] else []) + file.frames;
    assert all == scan.frames by {
      if file.info.Some? {
        assert [file.info.value] + file.frames == scan.frames;
      }
    }
    NoFrameAlone(data, AudioEnd(data), TagsEnd(data, 0), None, false, i);
    assert |file.id3v1| == |data| - AudioEnd(data);
  }

  // ---- junk, and half a frame ----

  lemma JunkByte(data: seq<byte>, end: nat, position: nat, stream: Option<Header>)
    requires position + 4 <= end <= |data| && data[position] != 0xFF
    ensures StepAt(data, end, position, stream, false) == Skip
    ensures var rest := ScanFrom(data, end, position + 1, stream, false);
            ScanFrom(data, end, position, stream, false) == Scan(rest.frames, rest.skipped + 1, rest.truncated)
  {
    hide Size, MainDataBegin, Confirmed;
    assert data[position..][0] == data[position];
  }

  /** Bytes that no header begins with are skipped. */
  lemma {:induction false} JunkIsSkipped(data: seq<byte>, end: nat, position: nat, stream: Option<Header>, n: nat)
    requires position + n <= end <= |data| && forall k | position <= k < position + n :: data[k] != 0xFF
    ensures var rest := ScanFrom(data, end, position + n, stream, false);
            ScanFrom(data, end, position, stream, false) == Scan(rest.frames, n + rest.skipped, rest.truncated)
    decreases n
  {
    hide *;
    if n > 0 && position + 4 <= end {
      JunkByte(data, end, position, stream);
      JunkIsSkipped(data, end, position + 1, stream, n - 1);
      assert position + 1 + (n - 1) == position + n;
    } else if n > 0 {
      TooShort(data, end, position, stream);
      TooShort(data, end, position + n, stream);
    }
  }

  lemma TooShort(data: seq<byte>, end: nat, position: nat, stream: Option<Header>)
    requires position <= end < position + 4 && end <= |data|
    ensures ScanFrom(data, end, position, stream, false) == Scan([], end - position, 0)
  {
  }

  /** The beginning of a frame of the stream that goes on past the end. */
  predicate HalfFrame(tail: seq<byte>, stream: Header) {
    && |tail| >= 4 && ParseHeader(tail).Some? && ParseHeader(tail).value.sampleRate > 0
    && SameStream(ParseHeader(tail).value, stream) && Size(ParseHeader(tail).value) > |tail|
  }

  lemma HalfFrameIsCut(data: seq<byte>, end: nat, position: nat, tail: seq<byte>, stream: Header)
    requires position <= end <= |data| && data[position..end] == tail && HalfFrame(tail, stream)
    ensures ScanFrom(data, end, position, Some(stream), true) == Scan([], 0, |tail|)
  {
    hide ParseHeader, MainDataBegin;
    forall k | 0 <= k < 4
      ensures data[position..][k] == tail[k]
    {
      assert data[position..end][k] == tail[k];
    }
    assert data[position..][..4] == tail[..4];
    HeaderIsFourBytes(data[position..], tail);
  }

  /** These bytes are what the data has from position on, to the end. */
  predicate Stands(data: seq<byte>, position: nat, end: nat, content: seq<byte>) {
    position <= end <= |data| && data[position..end] == content
  }

  lemma FrontStands(data: seq<byte>, position: nat, end: nat, front: seq<byte>, rest: seq<byte>)
    requires Stands(data, position, end, front + rest)
    ensures position + |front| <= end <= |data| && data[position..position + |front|] == front && Stands(data, position + |front|, end, rest)
  {
    assert data[position..end][..|front|] == front && data[position..end][|front|..] == rest;
    assert data[position..position + |front|] == data[position..end][..|front|];
    assert data[position + |front|..end] == data[position..end][|front|..];
  }

  /** The parts one after another, and what follows them. */
  function Joined(parts: seq<seq<byte>>, tail: seq<byte>): (all: seq<byte>) {
    if parts == [] then tail else parts[0] + Joined(parts[1..], tail)
  }

  lemma {:induction false} JoinedIsFlat(parts: seq<seq<byte>>, tail: seq<byte>)
    ensures Joined(parts, tail) == Flatten(parts) + tail
  {
    if parts != [] {
      JoinedIsFlat(parts[1..], tail);
      Associative(parts[0], Flatten(parts[1..]), tail);
    }
  }

  /** Whole frames of one stream. */
  ghost predicate PartsOf(parts: seq<seq<byte>>, headers: seq<Header>, stream: Header) {
    && |parts| == |headers|
    && forall j | 0 <= j < |parts| ::
         && IsPart(parts[j], headers[j])
         && headers[j].version == stream.version && headers[j].layer == stream.layer && headers[j].sampleRate == stream.sampleRate
  }

  lemma PartsOfRest(parts: seq<seq<byte>>, headers: seq<Header>, stream: Header)
    requires PartsOf(parts, headers, stream) && parts != []
    ensures IsPart(parts[0], headers[0]) && SameStream(headers[0], stream) && PartsOf(parts[1..], headers[1..], stream)
  {
    hide IsPart;
  }

  /** The part as a frame found there. */
  function PartFrame(at: nat, part: seq<byte>, h: Header): Frame {
    Frame(at, |part|, h, if h.layer == 3 then MainDataBegin(part, h) else 0)
  }

  lemma PartIsTaken(data: seq<byte>, end: nat, at: nat, stream: Header, part: seq<byte>, h: Header)
    requires IsPart(part, h) && SameStream(h, stream) && at + |part| <= end <= |data| && data[at..at + |part|] == part
    ensures |part| >= 24 && |part| == Size(h) && StepAt(data, end, at, Some(stream), true) == Take(h)
    ensures FrameAt(data, at, h) == PartFrame(at, part, h)
  {
    hide ParseHeader, MainDataBegin, Size;
    PartParses(data, at, part, h);
  }

  /** Parts in sync, and half a frame after them. */
  lemma {:induction false} PartsThenHalf(data: seq<byte>, end: nat, position: nat, stream: Header, parts: seq<seq<byte>>, headers: seq<Header>,
                                         tail: seq<byte>)
    requires |parts| == |headers| && PartsOf(parts, headers, stream) && position <= end <= |data|
    requires Stands(data, position, end, Joined(parts, tail)) && HalfFrame(tail, stream)
    ensures ScanFrom(data, end, position, Some(stream), true) == Scan(LayOut(parts, headers, position), 0, |tail|)
    decreases |parts|
  {
    hide *;
    if parts == [] {
      NothingJoined(headers, position, tail);
      HalfFrameStands(data, end, position, tail, stream);
    } else {
      OneJoined(parts, tail);
      PartsOfRest(parts, headers, stream);
      FrontStands(data, position, end, parts[0], Joined(parts[1..], tail));
      PartIsTaken(data, end, position, stream, parts[0], headers[0]);
      NextTaken(data, end, position, stream, headers[0]);
      PartsThenHalf(data, end, position + |parts[0]|, stream, parts[1..], headers[1..], tail);
      FirstLaidOut(parts, headers, position);
    }
  }

  lemma NothingJoined(headers: seq<Header>, position: nat, tail: seq<byte>)
    ensures Joined([], tail) == tail
    ensures headers == [] ==> LayOut([], headers, position) == []
  {
  }

  lemma OneJoined(parts: seq<seq<byte>>, tail: seq<byte>)
    requires parts != []
    ensures Joined(parts, tail) == parts[0] + Joined(parts[1..], tail)
  {
  }

  lemma HalfFrameStands(data: seq<byte>, end: nat, position: nat, tail: seq<byte>, stream: Header)
    requires position <= end <= |data| && Stands(data, position, end, tail) && HalfFrame(tail, stream)
    ensures ScanFrom(data, end, position, Some(stream), true) == Scan([], 0, |tail|)
  {
    hide ScanFrom;
    HalfFrameIsCut(data, end, position, tail, stream);
  }

  lemma NextTaken(data: seq<byte>, end: nat, at: nat, stream: Header, h: Header)
    requires at + 4 <= end <= |data| && StepAt(data, end, at, Some(stream), true) == Take(h)
    ensures h.sampleRate > 0 && at + Size(h) <= end
    ensures var rest := ScanFrom(data, end, at + Size(h), Some(stream), true);
            ScanFrom(data, end, at, Some(stream), true) == Scan([FrameAt(data, at, h)] + rest.frames, rest.skipped, rest.truncated)
  {
    hide StepAt, Size, MainDataBegin;
  }

  /** The first of two parts or more is believed, the second following it. */
  lemma FirstIsTaken(data: seq<byte>, end: nat, at: nat, a: seq<byte>, h: Header, b: seq<byte>, g: Header, rest: seq<byte>)
    requires IsPart(a, h) && IsPart(b, g) && SameStream(g, h) && Stands(data, at, end, a + (b + rest))
    ensures at + |a| <= end <= |data| && |a| >= 24 && |a| == Size(h) && StepAt(data, end, at, None, false) == Take(h)
    ensures FrameAt(data, at, h) == PartFrame(at, a, h)
  {
    hide ParseHeader, MainDataBegin, Size;
    FrontStands(data, at, end, a, b + rest);
    FrontStands(data, at + |a|, end, b, rest);
    PartParses(data, at, a, h);
    PartParses(data, at + |a|, b, g);
    assert Confirmed(data, end, at + |a|, h);
  }

  /** The first of them is found, and then what there is after it. */
  lemma FirstFound(data: seq<byte>, end: nat, at: nat, parts: seq<seq<byte>>, headers: seq<Header>, tail: seq<byte>) returns (rest: Scan)
    requires |parts| == |headers| >= 2 && AreParts(parts, headers)
    requires at <= end <= |data| && Stands(data, at, end, Joined(parts, tail))
    ensures at + |parts[0]| <= end && rest == ScanFrom(data, end, at + |parts[0]|, Some(headers[0]), true)
    ensures ScanFrom(data, end, at, None, false) == Scan([PartFrame(at, parts[0], headers[0])] + rest.frames, rest.skipped, rest.truncated)
  {
    hide *;
    RestOfParts(parts, headers);
    TwoStand(data, at, end, parts, tail);
    FirstIsTaken(data, end, at, parts[0], headers[0], parts[1], headers[1], Joined(parts[2..], tail));
    TakenComesFirst(data, end, at, headers[0]);
    rest := ScanFrom(data, end, at + |parts[0]|, Some(headers[0]), true);
  }

  lemma RestFound(data: seq<byte>, end: nat, at: nat, parts: seq<seq<byte>>, headers: seq<Header>, tail: seq<byte>, rest: Scan)
    requires |parts| == |headers| >= 2 && AreParts(parts, headers) && HalfFrame(tail, headers[0])
    requires at + |parts[0]| <= end <= |data| && Stands(data, at, end, Joined(parts, tail))
    requires rest == ScanFrom(data, end, at + |parts[0]|, Some(headers[0]), true)
    ensures rest == Scan(LayOut(parts[1..], headers[1..], at + |parts[0]|), 0, |tail|)
  {
    hide *;
    RestOfParts(parts, headers);
    TwoStand(data, at, end, parts, tail);
    FrontStands(data, at, end, parts[0], Joined(parts[1..], tail));
    PartsThenHalf(data, end, at + |parts[0]|, headers[0], parts[1..], headers[1..], tail);
  }

  /** Two frames or more, and half a frame after them. */
  lemma FramesAndHalf(data: seq<byte>, end: nat, at: nat, parts: seq<seq<byte>>, headers: seq<Header>, tail: seq<byte>)
    requires |parts| == |headers| >= 2 && AreParts(parts, headers) && HalfFrame(tail, headers[0])
    requires at <= end <= |data| && Stands(data, at, end, Joined(parts, tail))
    ensures ScanFrom(data, end, at, None, false) == Scan(LayOut(parts, headers, at), 0, |tail|)
  {
    hide *;
    var rest := FirstFound(data, end, at, parts, headers, tail);
    RestFound(data, end, at, parts, headers, tail, rest);
    FirstLaidOut(parts, headers, at);
    Put(ScanFrom(data, end, at, None, false), PartFrame(at, parts[0], headers[0]), rest,
        LayOut(parts[1..], headers[1..], at + |parts[0]|), |tail|, LayOut(parts, headers, at));
  }

  lemma Put(whole: Scan, first: Frame, rest: Scan, frames: seq<Frame>, n: nat, all: seq<Frame>)
    requires whole == Scan([first] + rest.frames, rest.skipped, rest.truncated) && rest == Scan(frames, 0, n) && all == [first] + frames
    ensures whole == Scan(all, 0, n)
  {
  }

  /** A frame taken comes first, and then what is found after it. */
  lemma TakenComesFirst(data: seq<byte>, end: nat, at: nat, h: Header)
    requires at + 4 <= end <= |data| && StepAt(data, end, at, None, false) == Take(h)
    ensures h.sampleRate > 0 && at + Size(h) <= end
    ensures var rest := ScanFrom(data, end, at + Size(h), Some(h), true);
            ScanFrom(data, end, at, None, false) == Scan([FrameAt(data, at, h)] + rest.frames, rest.skipped, rest.truncated)
  {
    hide StepAt, Size, MainDataBegin;
  }

  lemma FirstLaidOut(parts: seq<seq<byte>>, headers: seq<Header>, at: nat)
    requires parts != [] && |headers| == |parts|
    ensures LayOut(parts, headers, at) == [PartFrame(at, parts[0], headers[0])] + LayOut(parts[1..], headers[1..], at + |parts[0]|)
  {
    hide MainDataBegin;
  }

  lemma TwoStand(data: seq<byte>, at: nat, end: nat, parts: seq<seq<byte>>, tail: seq<byte>)
    requires |parts| >= 2 && Stands(data, at, end, Joined(parts, tail))
    ensures Stands(data, at, end, parts[0] + (parts[1] + Joined(parts[2..], tail))) && Stands(data, at, end, parts[0] + Joined(parts[1..], tail))
  {
    hide Stands;
    assert parts[1..][0] == parts[1] && parts[1..][1..] == parts[2..];
    assert Joined(parts, tail) == parts[0] + Joined(parts[1..], tail);
    assert Joined(parts[1..], tail) == parts[1] + Joined(parts[2..], tail);
  }

  lemma RestOfParts(parts: seq<seq<byte>>, headers: seq<Header>)
    requires AreParts(parts, headers) && |parts| >= 2
    ensures IsPart(parts[0], headers[0]) && IsPart(parts[1], headers[1]) && SameStream(headers[1], headers[0])
    ensures PartsOf(parts[1..], headers[1..], headers[0])
  {
    hide IsPart;
  }

  /** All frames of a file have one version, layer and sample rate. */
  lemma FilesAreOneStream(data: seq<byte>, file: File, i: nat, j: nat)
    requires ParseFile(data) == Some(file) && i < |file.frames| && j < |file.frames|
    ensures var a, b := file.frames[i].header, file.frames[j].header; a.version == b.version && a.layer == b.layer && a.sampleRate == b.sampleRate
  {
    hide ParseFile;
    RoundTrip.ParsedIsWellFormed(data);
    assert SameStream(file.frames[i].header, file.frames[j].header) by {
      hide SameStream, Genuine, TagsEnd;
    }
  }

  /** None of the bytes can begin a header. */
  predicate IsJunk(junk: seq<byte>) {
    forall b | b in junk :: b != 0xFF
  }

  lemma JunkStands(data: seq<byte>, position: nat, end: nat, junk: seq<byte>, rest: seq<byte>)
    requires Stands(data, position, end, junk + rest) && IsJunk(junk)
    ensures position + |junk| <= end <= |data| && Stands(data, position + |junk|, end, rest)
    ensures var scan := ScanFrom(data, end, position + |junk|, None, false);
            ScanFrom(data, end, position, None, false) == Scan(scan.frames, |junk| + scan.skipped, scan.truncated)
  {
    hide ScanFrom;
    FrontStands(data, position, end, junk, rest);
    forall k | position <= k < position + |junk|
      ensures data[k] != 0xFF
    {
      assert data[position..position + |junk|][k - position] in junk;
    }
    JunkIsSkipped(data, end, position, None, |junk|);
  }

  /** Junk, then two frames or more of one stream, then half a frame: the junk
      is skipped, the frames are found, and the half frame is cut off. */
  lemma JunkFramesAndHalf(data: seq<byte>, end: nat, position: nat, junk: seq<byte>, parts: seq<seq<byte>>, headers: seq<Header>, tail: seq<byte>)
    requires IsJunk(junk) && |parts| == |headers| >= 2 && AreParts(parts, headers) && HalfFrame(tail, headers[0])
    requires position <= end <= |data| && Stands(data, position, end, junk + (Flatten(parts) + tail))
    ensures ScanFrom(data, end, position, None, false) == Scan(LayOut(parts, headers, position + |junk|), |junk|, |tail|)
  {
    hide *;
    JoinedIsFlat(parts, tail);
    JunkStands(data, position, end, junk, Joined(parts, tail));
    FramesAndHalf(data, end, position + |junk|, parts, headers, tail);
  }
}
