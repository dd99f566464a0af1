/** The structure of an MPEG audio file: tags, frame headers and positions. */
module Mp3 {
  import opened Common

  datatype Version = MPEG1 | MPEG2 | MPEG25

  datatype Header = Header(version: Version, layer: nat, bitrate: nat, sampleRate: nat,
                           padding: bool, protected: bool, mono: bool)

  // kbit/s by header index, layers 1 to 3; index 0 is the refused "free" rate
  const BITRATES_MPEG1: seq<seq<nat>> := [
    [0, 32, 64, 96, 128, 160, 192, 224, 256, 288, 320, 352, 384, 416, 448],
    [0, 32, 48, 56, 64, 80, 96, 112, 128, 160, 192, 224, 256, 320, 384],
    [0, 32, 40, 48, 56, 64, 80, 96, 112, 128, 160, 192, 224, 256, 320]]
  const BITRATES_MPEG2: seq<seq<nat>> := [
    [0, 32, 48, 56, 64, 80, 96, 112, 128, 144, 160, 176, 192, 224, 256],
    [0, 8, 16, 24, 32, 40, 48, 56, 64, 80, 96, 112, 128, 144, 160],
    [0, 8, 16, 24, 32, 40, 48, 56, 64, 80, 96, 112, 128, 144, 160]]

  function SampleRate(version: Version, index: nat): (rate: nat)
    requires index < 3
    ensures 8000 <= rate <= 48000
  {
    match version
    case MPEG1 => [44100, 48000, 32000][index]
    case MPEG2 => [22050, 24000, 16000][index]
    case MPEG25 => [11025, 12000, 8000][index]
  }

  function Bitrate(version: Version, layer: nat, index: nat): (rate: nat)
    requires 1 <= layer <= 3 && 1 <= index < 15
    ensures rate >= (if version.MPEG1? || layer == 1 then 32 else 8)
  {
    if version.MPEG1? then BITRATES_MPEG1[layer - 1][index] else BITRATES_MPEG2[layer - 1][index]
  }

  /** The 4-byte header, or None for anything that can't start a frame. */
  function ParseHeader(raw: seq<byte>): (h: Option<Header>) {
    if |raw| < 4 || raw[0] != 0xFF || raw[1] / 32 != 7 then None
    else
      var versionBits := raw[1] / 8 % 4;
      var layer := 4 - raw[1] / 2 % 4;
      var bitrateIndex := raw[2] / 16;
      var rateIndex := raw[2] / 4 % 4;
      if versionBits == 1 || layer == 4 || bitrateIndex == 0 || bitrateIndex == 15 || rateIndex == 3 then None
      else
        var version := if versionBits == 0 then MPEG25 else if versionBits == 2 then MPEG2 else MPEG1;
        Some(Header(version, layer, Bitrate(version, layer, bitrateIndex), SampleRate(version, rateIndex),
                    raw[2] / 2 % 2 == 1, raw[1] % 2 == 0, raw[3] / 64 == 3))
  }

  /** What a header that parsed looks like. */
  predicate Plausible(h: Header) {
    && 1 <= h.layer <= 3
    && h.sampleRate in (match h.version
                        case MPEG1 => {44100, 48000, 32000}
                        case MPEG2 => {22050, 24000, 16000}
                        case MPEG25 => {11025, 12000, 8000})
    && h.bitrate >= (if h.version.MPEG1? || h.layer == 1 then 32 else 8)
  }

  lemma ParsedIsPlausible(raw: seq<byte>)
    ensures ParseHeader(raw).Some? ==> Plausible(ParseHeader(raw).value)
  {
  }

  lemma HeaderIsFourBytes(a: seq<byte>, b: seq<byte>)
    requires |a| >= 4 && |b| >= 4 && a[..4] == b[..4]
    ensures ParseHeader(a) == ParseHeader(b)
  {
    assert a[0] == a[..4][0] && a[1] == a[..4][1] && a[2] == a[..4][2] && a[3] == a[..4][3];
    assert b[0] == b[..4][0] && b[1] == b[..4][1] && b[2] == b[..4][2] && b[3] == b[..4][3];
  }

  /** From the first byte of the header to the last of the frame. */
  function Size(h: Header): nat
    requires h.sampleRate > 0
  {
    var padding := if h.padding then 1 else 0;
    var bitsPerSecond := h.bitrate * 1000;
    if h.layer == 1 then (12 * bitsPerSecond / h.sampleRate + padding) * 4
    else if h.layer == 3 && !h.version.MPEG1? then 72 * bitsPerSecond / h.sampleRate + padding
    else 144 * bitsPerSecond / h.sampleRate + padding
  }

  function Samples(h: Header): nat {
    if h.layer == 1 then 384 else if h.layer == 3 && !h.version.MPEG1? then 576 else 1152
  }

  /** How long a frame plays, in nanoseconds. */
  function Duration(h: Header): nat
    requires h.sampleRate > 0
  {
    Samples(h) * 1_000_000_000 / h.sampleRate
  }

  function SideInfoSize(h: Header): nat {
    if h.version.MPEG1? then (if h.mono then 17 else 32) else (if h.mono then 9 else 17)
  }

  /** Where the side information starts: after the header and CRC. */
  function SideInfoStart(h: Header): nat {
    if h.protected then 6 else 4
  }

  /** How far into a Layer III frame its audio data is. */
  function MainDataOffset(h: Header): nat {
    SideInfoStart(h) + SideInfoSize(h)
  }

  predicate SameStream(a: Header, b: Header) {
    a.version == b.version && a.layer == b.layer && a.sampleRate == b.sampleRate
  }

  /** Every frame a header can announce holds its header, and every Layer III
      frame its CRC and side information too. */
  lemma FramesHoldTheirHeaders(h: Header)
    requires Plausible(h)
    ensures h.sampleRate > 0 && Size(h) >= 24 && Duration(h) > 0
    ensures h.layer == 3 ==> Size(h) >= MainDataOffset(h)
  {
  }

  datatype Frame = Frame(offset: nat, size: nat, header: Header, mainDataBegin: nat)

  datatype File = File(data: seq<byte>, id3v2: seq<byte>, info: Option<Frame>, frames: seq<Frame>,
                       id3v1: seq<byte>, skipped: nat, truncated: nat)

  predicate Inside(data: seq<byte>, frame: Frame) {
    frame.offset + frame.size <= |data|
  }

  function FrameBytes(data: seq<byte>, frame: Frame): (bytes: seq<byte>)
    requires Inside(data, frame)
    ensures |bytes| == frame.size
  {
    data[frame.offset..frame.offset + frame.size]
  }

  /** Layer III's back pointer: 9 bits after the header and CRC, 8 in MPEG-2. */
  function MainDataBegin(bytes: seq<byte>, h: Header): nat {
    var start := SideInfoStart(h);
    if |bytes| < start + 2 then 0
    else if h.version.MPEG1? then (bytes[start] as int) * 2 + bytes[start + 1] / 128
    else bytes[start]
  }

  /** How many bytes of audio data the frame carries itself. */
  function MainDataSize(frame: Frame): nat {
    if frame.size > MainDataOffset(frame.header) then frame.size - MainDataOffset(frame.header) else 0
  }

  /** A Xing, Info or VBRI tag where encoders put it. */
  predicate IsInfoFrame(bytes: seq<byte>, h: Header) {
    && h.layer == 3
    && var xing := MainDataOffset(h);
       || (|bytes| >= xing + 4 && bytes[xing..xing + 4] in [XING, INFO])
       || (|bytes| >= 40 && bytes[36..40] == VBRI)
  }

  const XING: seq<byte> := [0x58, 0x69, 0x6E, 0x67]
  const INFO: seq<byte> := [0x49, 0x6E, 0x66, 0x6F]
  const VBRI: seq<byte> := [0x56, 0x42, 0x52, 0x49]
  const ID3: seq<byte> := [0x49, 0x44, 0x33]
  const TAG: seq<byte> := [0x54, 0x41, 0x47]

  // ---- ID3 tags ----

  /** Four 7-bit digits. */
  function Syncsafe(raw: seq<byte>): nat
    requires |raw| == 4
  {
    (raw[0] as int) * 0x20_0000 + (raw[1] as int) * 0x4000 + (raw[2] as int) * 0x80 + (raw[3] as int)
  }

  /** The length of the ID3v2 tag at position, or 0 when there is no real one. */
  function TagLength(data: seq<byte>, position: nat): (n: nat)
    requires position <= |data|
    ensures n == 0 || (n >= 10 && position + n <= |data|)
  {
    if |data| - position < 10 || data[position..position + 3] != ID3 then 0
    else
      var raw := data[position + 6..position + 10];
      if raw[0] >= 0x80 || raw[1] >= 0x80 || raw[2] >= 0x80 || raw[3] >= 0x80 then 0
      else
        var size := 10 + Syncsafe(raw) + if data[position + 5] / 16 % 2 == 1 then 10 else 0;
        if position + size > |data| then 0 else size
  }

  /** Where the run of ID3v2 tags from position on ends. */
  function TagsEnd(data: seq<byte>, position: nat): (end: nat)
    requires position <= |data|
    ensures position <= end <= |data|
    decreases |data| - position
  {
    var n := TagLength(data, position);
    if n == 0 then position else TagsEnd(data, position + n)
  }

  method Id3v2Length(data: seq<byte>) returns (position: nat)
    ensures position == TagsEnd(data, 0)
  {
    hide TagLength;
    position := 0;
    var size := TagLength(data, position);
    while size > 0
      invariant position <= |data| && size == TagLength(data, position)
      invariant TagsEnd(data, position) == TagsEnd(data, 0)
      decreases |data| - position
    {
      position := position + size;
      size := TagLength(data, position);
    }
  }

  /** The end of the audio: before an ID3v1 tag, when the last 128 bytes are one. */
  function AudioEnd(data: seq<byte>): (end: nat)
    ensures TagsEnd(data, 0) <= end <= |data|
  {
    if |data| - TagsEnd(data, 0) >= 128 && data[|data| - 128..|data| - 125] == TAG then |data| - 128 else |data|
  }

  // ---- frames ----

  /** What follows bears the header out: the end, or one of the same stream. */
  predicate Confirmed(data: seq<byte>, end: nat, next: nat, h: Header)
    requires next <= end <= |data|
  {
    || next == end
    || (next + 4 <= end && ParseHeader(data[next..]).Some?
        && var following := ParseHeader(data[next..]).value;
           following.sampleRate > 0 && SameStream(following, h) && next + Size(following) <= end)
  }

  datatype Step = Skip | Cut | Take(header: Header)

  /** What the byte at position turns out to be. */
  function StepAt(data: seq<byte>, end: nat, position: nat, stream: Option<Header>, synced: bool): (s: Step)
    requires position + 4 <= end <= |data|
    ensures s.Take? ==> ParseHeader(data[position..]) == Some(s.header) && Plausible(s.header)
                        && s.header.sampleRate > 0 && 24 <= Size(s.header) && position + Size(s.header) <= end
  {
    var parsed := ParseHeader(data[position..]);
    ParsedIsPlausible(data[position..]);
    if parsed.None? || (stream.Some? && !SameStream(parsed.value, stream.value)) then Skip
    else
      FramesHoldTheirHeaders(parsed.value);
      var size := Size(parsed.value);
      if position + size > end then if synced then Cut else Skip
      else if !synced && !Confirmed(data, end, position + size, parsed.value) then Skip
      else Take(parsed.value)
  }

  function FrameAt(data: seq<byte>, position: nat, h: Header): (f: Frame)
    requires h.sampleRate > 0 && position + Size(h) <= |data|
  {
    Frame(position, Size(h), h, if h.layer == 3 then MainDataBegin(data[position..position + Size(h)], h) else 0)
  }

  /** What is found from position on: all frames, an info frame included, and
      the bytes in none. */
  datatype Scan = Scan(frames: seq<Frame>, skipped: nat, truncated: nat)

  function ScanFrom(data: seq<byte>, end: nat, position: nat, stream: Option<Header>, synced: bool): (s: Scan)
    requires position <= end <= |data|
    decreases end - position
  {
    if position + 4 > end then Scan([], end - position, 0)
    else
      match StepAt(data, end, position, stream, synced)
      case Skip =>
        var rest := ScanFrom(data, end, position + 1, stream, false);
        rest.(skipped := rest.skipped + 1)
      case Cut => Scan([], 0, end - position)
      case Take(h) =>
        var rest := ScanFrom(data, end, position + Size(h), if stream.Some? then stream else Some(h), true);
        rest.(frames := [FrameAt(data, position, h)] + rest.frames)
  }

  /** The first frame describes the file when it carries an info tag. */
  function ToFile(data: seq<byte>, scan: Scan): Option<File> {
    var start, end := TagsEnd(data, 0), AudioEnd(data);
    var info := scan.frames != [] && Inside(data, scan.frames[0])
                && IsInfoFrame(FrameBytes(data, scan.frames[0]), scan.frames[0].header);
    var frames := if info then scan.frames[1..] else scan.frames;
    if frames == [] then None
    else Some(File(data, data[..start], if info then Some(scan.frames[0]) else None, frames, data[end..],
                   scan.skipped, scan.truncated))
  }

  function ParseFile(data: seq<byte>): Option<File> {
    ToFile(data, ScanFrom(data, AudioEnd(data), TagsEnd(data, 0), None, false))
  }

  /** The info frame, if the first frame of the scan is one, and the others. */
  ghost predicate Sorted(data: seq<byte>, taken: seq<Frame>, info: Option<Frame>, frames: seq<Frame>) {
    && taken == (if info.Some? then [info.value] else []) + frames
    && (taken != [] ==>
          Inside(data, taken[0]) && (info.Some? <==> IsInfoFrame(FrameBytes(data, taken[0]), taken[0].header)))
  }

  /** The scan from here on, in terms of the one after this step. */
  lemma ScanStep(data: seq<byte>, end: nat, position: nat, stream: Option<Header>, synced: bool)
    requires position + 4 <= end <= |data|
    ensures var scan := ScanFrom(data, end, position, stream, synced);
            match StepAt(data, end, position, stream, synced)
            case Skip => (var rest := ScanFrom(data, end, position + 1, stream, false);
                          scan == rest.(skipped := rest.skipped + 1))
            case Cut => scan == Scan([], 0, end - position)
            case Take(h) => (var rest := ScanFrom(data, end, position + Size(h), if stream.Some? then stream else Some(h), true);
                             scan == rest.(frames := [FrameAt(data, position, h)] + rest.frames))
  {
    hide StepAt, Size, FrameAt;
  }

  method ScanAudio(data: seq<byte>, end: nat, start: nat)
    returns (info: Option<Frame>, frames: seq<Frame>, skipped: nat, truncated: nat)
    requires start <= end <= |data|
    ensures var scan := ScanFrom(data, end, start, None, false);
            skipped == scan.skipped && truncated == scan.truncated && Sorted(data, scan.frames, info, frames)
  {
    hide ParseHeader, Confirmed, StepAt, IsInfoFrame, Size, MainDataBegin;
    ghost var whole := ScanFrom(data, end, start, None, false);
    var position := start;
    var stream: Option<Header> := None;
    var synced := false;
    info, frames, skipped, truncated := None, [], 0, 0;
    ghost var taken: seq<Frame> := [];
    while position + 4 <= end
      invariant position <= end && truncated == 0
      invariant stream.None? <==> taken == []
      invariant var rest := ScanFrom(data, end, position, stream, synced);
                whole == Scan(taken + rest.frames, skipped + rest.skipped, rest.truncated)
      invariant Sorted(data, taken, info, frames)
      decreases end - position
    {
      ScanStep(data, end, position, stream, synced);
      hide ScanFrom;
      match StepAt(data, end, position, stream, synced)
      case Skip =>
        position, skipped, synced := position + 1, skipped + 1, false;
      case Cut =>
        truncated := end - position;
        return;
      case Take(header) =>
        var frame := FrameAt(data, position, header);
        position, synced := position + Size(header), true;
        taken := taken + [frame];
        if stream.None? {
          stream := Some(header);
          if IsInfoFrame(FrameBytes(data, frame), header) {
            info := Some(frame);
            continue;
          }
        }
        frames := frames + [frame];
    }
    skipped := skipped + (end - position);
  }

  method Parse(data: seq<byte>) returns (file: Option<File>)
    ensures file == ParseFile(data)
  {
    hide ParseHeader, Confirmed, StepAt, IsInfoFrame, Size, ScanFrom, TagLength;
    var position := Id3v2Length(data);
    var id3v2 := data[..position];
    var end, id3v1: seq<byte> := |data|, [];
    if end - position >= 128 && data[end - 128..end - 125] == TAG {
      id3v1 := data[end - 128..];
      end := end - 128;
    }
    var info, frames, skipped, truncated := ScanAudio(data, end, position);
    ghost var scan := ScanFrom(data, end, position, None, false);
    assert if info.Some? then scan.frames[1..] == frames else scan.frames == frames;
    assert end == AudioEnd(data) && id3v1 == data[end..];
    if frames == [] {
      return None;
    }
    file := Some(File(data, id3v2, info, frames, id3v1, skipped, truncated));
  }

  // ---- what parsing promises ----

  /** frame is what the header at its offset says, inside [0, end). */
  predicate Genuine(data: seq<byte>, end: nat, frame: Frame)
    requires end <= |data|
  {
    && frame.offset + frame.size <= end
    && ParseHeader(data[frame.offset..]) == Some(frame.header)
    && Plausible(frame.header) && frame.header.sampleRate > 0 && frame.size == Size(frame.header)
    && frame == FrameAt(data, frame.offset, frame.header)
  }

  function Total(frames: seq<Frame>): (n: nat) {
    if frames == [] then 0 else frames[0].size + Total(frames[1..])
  }

  /** Genuine frames of one stream, each after the one before; one that
      doesn't follow directly (the first of a run) is confirmed. */
  ghost predicate InFile(data: seq<byte>, end: nat, position: nat, stream: Option<Header>, synced: bool, frames: seq<Frame>)
    requires end <= |data|
    decreases |frames|
  {
    frames == [] ||
    var f := frames[0];
    && position <= f.offset && Genuine(data, end, f)
    && (stream.Some? ==> SameStream(f.header, stream.value))
    && ((synced && f.offset == position) || Confirmed(data, end, f.offset + f.size, f.header))
    && InFile(data, end, f.offset + f.size, if stream.Some? then stream else Some(f.header), true, frames[1..])
  }

  lemma {:induction false} ScannedInFile(data: seq<byte>, end: nat, position: nat, stream: Option<Header>, synced: bool)
    requires position <= end <= |data|
    ensures var scan := ScanFrom(data, end, position, stream, synced);
            && InFile(data, end, position, stream, synced, scan.frames)
            && Total(scan.frames) + scan.skipped + scan.truncated == end - position
    decreases end - position
  {
    hide ParseHeader, Size, MainDataBegin, Plausible;
    if position + 4 <= end {
      match StepAt(data, end, position, stream, synced)
      case Skip =>
        ScannedInFile(data, end, position + 1, stream, false);
        LaterInFile(data, end, position, stream, synced, ScanFrom(data, end, position + 1, stream, false).frames);
      case Cut =>
      case Take(h) =>
        var next := if stream.Some? then stream else Some(h);
        ScannedInFile(data, end, position + Size(h), next, true);
        TakenFirst(data, end, position, stream, synced, h, ScanFrom(data, end, position + Size(h), next, true).frames);
    }
  }

  lemma LaterInFile(data: seq<byte>, end: nat, position: nat, stream: Option<Header>, synced: bool, frames: seq<Frame>)
    requires end <= |data| && InFile(data, end, position + 1, stream, false, frames)
    ensures InFile(data, end, position, stream, synced, frames)
  {
    hide ParseHeader, Size, MainDataBegin, Plausible, Genuine, Confirmed;
  }

  lemma TakenFirst(data: seq<byte>, end: nat, position: nat, stream: Option<Header>, synced: bool, h: Header, rest: seq<Frame>)
    requires position + 4 <= end <= |data| && StepAt(data, end, position, stream, synced) == Take(h)
    requires InFile(data, end, position + Size(h), if stream.Some? then stream else Some(h), true, rest)
    ensures InFile(data, end, position, stream, synced, [FrameAt(data, position, h)] + rest)
    ensures Total([FrameAt(data, position, h)] + rest) == Size(h) + Total(rest)
  {
    hide ParseHeader, Size, MainDataBegin, Plausible;
    var all := [FrameAt(data, position, h)] + rest;
    assert all[0] == FrameAt(data, position, h) && all[1..] == rest;
    assert Genuine(data, end, all[0]);
  }

  /** Every byte of a file is in a tag, the info frame, a frame, or counted. */
  lemma EveryByteCounted(data: seq<byte>)
    requires ParseFile(data).Some?
    ensures var file := ParseFile(data).value;
            |file.id3v2| + (if file.info.Some? then file.info.value.size else 0) + Total(file.frames)
            + file.skipped + file.truncated + |file.id3v1| == |data|
    ensures var file := ParseFile(data).value;
            var all := (if file.info.Some? then [file.info.value] else []) + file.frames;
            InFile(data, AudioEnd(data), TagsEnd(data, 0), None, false, all)
  {
    hide ParseHeader, Size, MainDataBegin, IsInfoFrame, ScanFrom, TagLength;
    var scan := ScanFrom(data, AudioEnd(data), TagsEnd(data, 0), None, false);
    ScannedInFile(data, AudioEnd(data), TagsEnd(data, 0), None, false);
    var file := ParseFile(data).value;
    if file.info.Some? {
      assert [file.info.value] + file.frames == scan.frames;
    } else {
      assert [] + file.frames == scan.frames;
    }
  }
}
