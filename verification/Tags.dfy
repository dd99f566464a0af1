/** ID3v2 tags: written one after another in front of the audio, they are found
    whole, and nothing else is taken for one. */
module Tags {
  import opened Common
  import opened Mp3
  import opened Reservoir

  /** A length in four digits of seven bits. */
  function Digits(n: nat): (digits: seq<byte>)
    requires n < 0x1000_0000
    ensures |digits| == 4
  {
    [n / 0x20_0000, n / 0x4000 % 0x80, n / 0x80 % 0x80, n % 0x80]
  }

  /** The bit of the flags that says a footer follows. */
  predicate HasFooter(flags: byte) { flags / 16 % 2 == 1 }

  /** A tag as it is written: its name, version and flags, the length of its
      content, the content, and the footer if there is one. */
  function Tag(version: seq<byte>, flags: byte, content: seq<byte>, footer: seq<byte>): (tag: seq<byte>)
    requires |content| < 0x1000_0000
  {
    [0x49, 0x44, 0x33] + version + [flags] + Digits(|content|) + content + footer
  }

  ghost predicate IsTag(tag: seq<byte>) {
    exists version: seq<byte>, flags: byte, content: seq<byte>, footer: seq<byte>
      | |version| == 2 && |content| < 0x1000_0000 && |footer| == (if HasFooter(flags) then 10 else 0) ::
      tag == Tag(version, flags, content, footer)
  }

  lemma DigitsRead(n: nat)
    requires n < 0x1000_0000
    ensures Syncsafe(Digits(n)) == n
    ensures forall d | d in Digits(n) :: d < 0x80
  {
    var a, b, c := n / 0x80, n / 0x4000, n / 0x20_0000;
    assert n == a * 0x80 + n % 0x80;
    assert a == b * 0x80 + a % 0x80;
    assert b == c * 0x80 + b % 0x80;
  }

  lemma DigitsWritten(raw: seq<byte>)
    requires |raw| == 4 && forall d | d in raw :: d < 0x80
    ensures Syncsafe(raw) < 0x1000_0000 && Digits(Syncsafe(raw)) == raw
  {
    assert raw[0] in raw && raw[1] in raw && raw[2] in raw && raw[3] in raw;
    var n, a, b := Syncsafe(raw), (raw[0] as int * 0x80 + raw[1] as int) * 0x80 + raw[2] as int, raw[0] as int * 0x80 + raw[1] as int;
    assert n == a * 0x80 + raw[3] as int;
    assert n / 0x80 == a && n % 0x80 == raw[3] as int;
    assert a / 0x80 == b && a % 0x80 == raw[2] as int;
    assert b / 0x80 == raw[0] as int && b % 0x80 == raw[1] as int;
    assert n / 0x4000 == b && n / 0x20_0000 == raw[0] as int;
  }

  /** What its first ten bytes say. */
  lemma TagStart(tag: seq<byte>)
    requires IsTag(tag)
    ensures |tag| >= 10 && tag[0..3] == ID3
    ensures tag[6] < 0x80 && tag[7] < 0x80 && tag[8] < 0x80 && tag[9] < 0x80
    ensures |tag| == 10 + Syncsafe(tag[6..10]) + if HasFooter(tag[5]) then 10 else 0
  {
    var version: seq<byte>, flags: byte, content: seq<byte>, footer: seq<byte> :|
      |version| == 2 && |content| < 0x1000_0000 && |footer| == (if HasFooter(flags) then 10 else 0)
      && tag == Tag(version, flags, content, footer);
    hide Syncsafe, Digits;
    var digits := Digits(|content|);
    DigitsRead(|content|);
    assert tag[0..3] == ID3 && tag[5] == flags && tag[6..10] == digits;
    assert digits[0] in digits && digits[1] in digits && digits[2] in digits && digits[3] in digits;
  }

  lemma SameSlice(data: seq<byte>, position: nat, tag: seq<byte>, from: nat, to: nat)
    requires from <= to <= |tag| && position + |tag| <= |data| && data[position..position + |tag|] == tag
    ensures data[position + from..position + to] == tag[from..to]
    ensures from < to ==> data[position + from] == tag[from]
  {
    forall k | 0 <= k < |tag|
      ensures data[position + k] == tag[k]
    {
      assert data[position..position + |tag|][k] == tag[k];
    }
  }

  /** A tag is found whole, wherever it is. */
  lemma TagIsFound(data: seq<byte>, position: nat, tag: seq<byte>)
    requires IsTag(tag) && position + |tag| <= |data| && data[position..position + |tag|] == tag
    ensures TagLength(data, position) == |tag|
  {
    TagStart(tag);
    hide IsTag, Syncsafe;
    SameSlice(data, position, tag, 0, 3);
    SameSlice(data, position, tag, 5, 6);
    SameSlice(data, position, tag, 6, 10);
    var raw := data[position + 6..position + 10];
    assert raw == tag[6..10];
    assert raw[0] == tag[6] && raw[1] == tag[7] && raw[2] == tag[8] && raw[3] == tag[9];
  }

  lemma SixParts(tag: seq<byte>, end: nat)
    requires 10 <= end <= |tag|
    ensures tag == tag[..3] + tag[3..5] + [tag[5]] + tag[6..10] + tag[10..end] + tag[end..]
  {
  }

  /** What is found is a tag. */
  lemma FoundIsTag(data: seq<byte>, position: nat)
    requires position <= |data| && TagLength(data, position) > 0
    ensures position + TagLength(data, position) <= |data| && IsTag(data[position..position + TagLength(data, position)])
  {
    var n := TagLength(data, position);
    var tag, raw := data[position..position + n], data[position + 6..position + 10];
    DigitsWritten(raw);
    hide Syncsafe, Digits;
    var length := Syncsafe(raw);
    var flags := data[position + 5];
    SameSlice(data, position, tag, 0, 3);
    assert tag[..3] == tag[0..3] == [0x49, 0x44, 0x33];
    SameSlice(data, position, tag, 6, 10);
    SixParts(tag, 10 + length);
    assert tag == Tag(tag[3..5], flags, tag[10..10 + length], tag[10 + length..]);
  }

  ghost predicate TagAt(data: seq<byte>, position: nat) {
    exists end | position <= end <= |data| :: IsTag(data[position..end])
  }

  /** Tags one after another, and then something else: all of them and nothing
      more is taken off. */
  lemma {:induction false} TagsAreSkipped(data: seq<byte>, position: nat, tags: seq<seq<byte>>)
    requires (forall t | t in tags :: IsTag(t)) && position + |Flatten(tags)| <= |data|
    requires data[position..position + |Flatten(tags)|] == Flatten(tags) && !TagAt(data, position + |Flatten(tags)|)
    ensures TagsEnd(data, position) == position + |Flatten(tags)|
    decreases |tags|
  {
    hide TagLength, IsTag;
    if tags == [] {
      assert TagLength(data, position) == 0 by {
        if TagLength(data, position) > 0 {
          FoundIsTag(data, position);
        }
      }
    } else {
      var tag, rest := tags[0], tags[1..];
      var flat := Flatten(tags);
      assert flat == tag + Flatten(rest) && tag in tags;
      assert data[position..position + |tag|] == data[position..position + |flat|][..|tag|] == tag;
      TagIsFound(data, position, tag);
      TagStart(tag);
      assert data[position + |tag|..position + |flat|] == data[position..position + |flat|][|tag|..] == Flatten(rest);
      assert position + |flat| == position + |tag| + |Flatten(rest)|;
      TagsAreSkipped(data, position + |tag|, rest);
    }
  }

  // ---- the other tags ----

  /** The characters of text stand in the bytes from at on. */
  predicate Reads(bytes: seq<byte>, at: nat, text: string) {
    at + |text| <= |bytes| && forall i | at <= i < at + |text| :: bytes[i] as int == text[i - at] as int
  }

  lemma ReadsIs(bytes: seq<byte>, at: nat, text: string, raw: seq<byte>)
    requires |raw| == |text| && forall i | 0 <= i < |raw| :: raw[i] as int == text[i] as int
    ensures Reads(bytes, at, text) <==> at + |raw| <= |bytes| && bytes[at..at + |raw|] == raw
  {
    if Reads(bytes, at, text) {
      forall i | 0 <= i < |raw|
        ensures bytes[at..at + |raw|][i] == raw[i]
      {
        assert bytes[at + i] as int == text[at + i - at] as int;
      }
    } else if at + |raw| <= |bytes| && bytes[at..at + |raw|] == raw {
      forall i | at <= i < at + |text|
        ensures bytes[i] as int == text[i - at] as int
      {
        assert bytes[at..at + |raw|][i - at] == raw[i - at];
      }
    }
  }

  /** An info frame is a Layer III frame that says Xing or Info where its audio
      data would begin, or VBRI at byte 36. */
  lemma InfoFrameSays(bytes: seq<byte>, h: Header)
    ensures IsInfoFrame(bytes, h) <==>
            && h.layer == 3
            && (Reads(bytes, MainDataOffset(h), "Xing") || Reads(bytes, MainDataOffset(h), "Info") || Reads(bytes, 36, "VBRI"))
  {
    var at := MainDataOffset(h);
    ReadsIs(bytes, at, "Xing", XING);
    ReadsIs(bytes, at, "Info", INFO);
    ReadsIs(bytes, 36, "VBRI", VBRI);
  }

  /** The audio ends where the file does, or 128 bytes before if TAG stands there,
      after the tags in front. */
  lemma AudioEndsBeforeTag(data: seq<byte>)
    ensures var last: int := |data| - 128;
            AudioEnd(data) == if last >= TagsEnd(data, 0) && Reads(data, last, "TAG") then last else |data|
  {
    if |data| >= 128 {
      ReadsIs(data, |data| - 128, "TAG", TAG);
    }
    hide TagsEnd;
  }
}
