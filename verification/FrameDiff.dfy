/** The whole frame diff: its stages in order, from two parsed downloads to the
    kept segments and the cut file. */
module FrameDiff {
  import opened Common
  import opened Runs
  import opened Alignment
  import opened Boundaries
  import Repeats
  import Markers
  import Mp3
  import opened Reservoir
  import Cut
  import RoundTrip
  import Gaps

  // ---- segments ----

  /** What frames [from, to) play. */
  function Span(durations: seq<nat>, from: nat, to: nat): (t: nat)
    requires from <= to <= |durations|
    decreases (to - from)
  {
    if from == to then 0 else Span(durations, from, to - 1) + durations[to - 1] as int
  }

  lemma {:induction false} SpanSplit(durations: seq<nat>, from: nat, mid: nat, to: nat)
    requires from <= mid <= to <= |durations|
    ensures Span(durations, from, to) == Span(durations, from, mid) + Span(durations, mid, to)
    decreases (to - mid)
  {
    if mid < to {
      SpanSplit(durations, from, mid, to - 1);
    }
  }

  /** The segments follow on from one another and cover frames [0, to). */
  ghost predicate Tile(tiles: seq<Segment>, durations: seq<nat>, to: nat)
    requires to <= |durations|
  {
    if tiles == [] then to == 0
    else
      var last := tiles[|tiles| - 1];
      && last.start < last.end == to && last.duration == Span(durations, last.start, last.end)
      && Tile(tiles[..|tiles| - 1], durations, last.start)
  }

  /** Tiles play exactly what the file plays. */
  lemma {:induction false} TilesPlayAll(tiles: seq<Segment>, durations: seq<nat>, to: nat)
    requires to <= |durations| && Tile(tiles, durations, to)
    ensures Played(tiles) == Span(durations, 0, to)
  {
    if tiles != [] {
      var last := tiles[|tiles| - 1];
      TilesPlayAll(tiles[..|tiles| - 1], durations, last.start);
      SpanSplit(durations, 0, last.start, to);
    }
  }

  /** Every frame is in exactly one tile. */
  lemma {:induction false} TilesHold(tiles: seq<Segment>, durations: seq<nat>, to: nat, i: nat) returns (k: nat)
    requires i < to <= |durations| && Tile(tiles, durations, to)
    ensures k < |tiles| && tiles[k].start <= i < tiles[k].end
    ensures forall l | 0 <= l < |tiles| && tiles[l].start <= i < tiles[l].end :: l == k
  {
    var n := |tiles| - 1;
    if i < tiles[n].start {
      k := TilesHold(tiles[..n], durations, tiles[n].start, i);
      assert forall l | 0 <= l < n :: tiles[l] == tiles[..n][l];
    } else {
      k := n;
      TilesBelow(tiles[..n], durations, tiles[n].start);
      assert forall l | 0 <= l < n :: tiles[l] == tiles[..n][l];
    }
  }

  lemma {:induction false} TilesBelow(tiles: seq<Segment>, durations: seq<nat>, to: nat)
    requires to <= |durations| && Tile(tiles, durations, to)
    ensures forall l | 0 <= l < |tiles| :: tiles[l].start < tiles[l].end <= to
  {
    if tiles != [] {
      var n := |tiles| - 1;
      TilesBelow(tiles[..n], durations, tiles[n].start);
      assert forall l | 0 <= l < n :: tiles[l] == tiles[..n][l];
    }
  }

  /** The kept segments are the runs' home frames. */
  ghost predicate SegmentsOf(runs: seq<Run>, durations: seq<nat>, segments: seq<Segment>) {
    && |segments| == |runs|
    && forall i | 0 <= i < |runs| ::
         && runs[i].home + runs[i].length <= |durations|
         && segments[i] == Segment(runs[i].home, runs[i].home + runs[i].length, Span(durations, runs[i].home, runs[i].home + runs[i].length))
  }

  lemma TileMore(tiles: seq<Segment>, durations: seq<nat>, from: nat, to: nat)
    requires from < to <= |durations| && Tile(tiles, durations, from)
    ensures Tile(tiles + [Segment(from, to, Span(durations, from, to))], durations, to)
  {
    var s := Segment(from, to, Span(durations, from, to));
    assert (tiles + [s])[..|tiles|] == tiles;
  }

  method Duration(durations: seq<nat>, start: nat, end: nat) returns (total: nat)
    requires start <= end <= |durations|
    ensures total == Span(durations, start, end)
  {
    total := 0;
    for i := start to end
      invariant total == Span(durations, start, i)
    {
      total := total + durations[i];
    }
  }

  /** Kept and removed segments, each in order, together are tiles of the home file. */
  ghost predicate Partition(kept: seq<Segment>, removed: seq<Segment>, tiles: seq<Segment>, durations: seq<nat>, to: nat)
    requires to <= |durations|
  {
    && Tile(tiles, durations, to) && multiset(tiles) == multiset(kept) + multiset(removed)
    && Ordered(kept, to) && Ordered(removed, to)
  }

  /** A segment of some frames, with what they play. */
  predicate IsSpan(s: Segment, durations: seq<nat>) {
    s.start < s.end <= |durations| && s.duration == Span(durations, s.start, s.end)
  }

  lemma {:induction false} TilesAreSpans(tiles: seq<Segment>, durations: seq<nat>, to: nat)
    requires to <= |durations| && Tile(tiles, durations, to)
    ensures forall s | s in tiles :: IsSpan(s, durations)
  {
    if tiles != [] {
      var n := |tiles| - 1;
      TilesAreSpans(tiles[..n], durations, tiles[n].start);
      assert tiles == tiles[..n] + [tiles[n]];
    }
  }

  /** A frame is either kept or removed. */
  lemma KeptOrRemoved(kept: seq<Segment>, removed: seq<Segment>, tiles: seq<Segment>, durations: seq<nat>, i: nat)
    requires Partition(kept, removed, tiles, durations, |durations|) && i < |durations|
    ensures HeldBy(removed, i) <==> !HeldBy(kept, i)
  {
    var k := TilesHold(tiles, durations, |durations|, i);
    hide Tile;
    assert tiles[k] in multiset(tiles);
    assert tiles[k] in kept || tiles[k] in removed;
    forall s | s in multiset(kept) + multiset(removed) && s.start <= i < s.end
      ensures s == tiles[k]
    {
      assert s in tiles;
    }
    if HeldBy(removed, i) && HeldBy(kept, i) {
      assert tiles[k] in kept && tiles[k] in removed;
      TwoOfOne(kept, removed, tiles, k);
      assert false;
    }
  }

  lemma TwoOfOne(kept: seq<Segment>, removed: seq<Segment>, tiles: seq<Segment>, k: nat)
    requires multiset(tiles) == multiset(kept) + multiset(removed) && k < |tiles| && tiles[k] in kept && tiles[k] in removed
    ensures exists l :: 0 <= l < |tiles| && l != k && tiles[l] == tiles[k]
  {
    assert tiles == tiles[..k] + ([tiles[k]] + tiles[k + 1..]);
    assert multiset(tiles)[tiles[k]] >= 2;
    if tiles[k] in tiles[..k] {
    } else {
      assert tiles[k] in tiles[k + 1..];
    }
  }

  /** Every kept and every removed segment has frames, and their duration. */
  lemma PartsAreSpans(kept: seq<Segment>, removed: seq<Segment>, tiles: seq<Segment>, durations: seq<nat>)
    requires Partition(kept, removed, tiles, durations, |durations|)
    ensures forall s | s in kept || s in removed :: IsSpan(s, durations)
  {
    TilesAreSpans(tiles, durations, |durations|);
    hide IsSpan, Tile;
    forall s | s in kept || s in removed
      ensures IsSpan(s, durations)
    {
      assert s in multiset(kept) + multiset(removed);
      assert s in multiset(tiles);
    }
  }

  /** The runs leave none of the first n frames of the home file out. */
  ghost predicate NoGap(runs: seq<Run>, n: nat) {
    if runs == [] then n == 0
    else
      var last := runs[|runs| - 1];
      last.home + last.length == n && NoGap(runs[..|runs| - 1], last.home)
  }

  lemma PrefixSteps(runs: seq<Run>, i: nat)
    requires i < |runs|
    ensures HomeEnd(runs[..i + 1]) == runs[i].home + runs[i].length
    ensures NoGap(runs[..i + 1], runs[i].home + runs[i].length) <==> NoGap(runs[..i], runs[i].home)
  {
    assert runs[..i + 1][..i] == runs[..i];
  }

  lemma {:induction false} NoGapEnds(runs: seq<Run>, n: nat)
    requires NoGap(runs, n)
    ensures HomeEnd(runs) == n
  {
  }

  lemma SegmentsMore(runs: seq<Run>, durations: seq<nat>, kept: seq<Segment>, i: nat)
    requires i < |runs| && SegmentsOf(runs[..i], durations, kept)
    requires runs[i].home + runs[i].length <= |durations|
    ensures SegmentsOf(runs[..i + 1], durations, kept + [Segment(runs[i].home, runs[i].home + runs[i].length,
                                                                  Span(durations, runs[i].home, runs[i].home + runs[i].length))])
  {
    hide Span;
    assert forall k | 0 <= k < i :: runs[..i + 1][k] == runs[..i][k];
  }

  lemma PartitionMore(list: seq<Segment>, others: seq<Segment>, tiles: seq<Segment>, durations: seq<nat>, from: nat, to: nat)
    requires from < to <= |durations| && Partition(list, others, tiles, durations, from)
    ensures var s := Segment(from, to, Span(durations, from, to));
            Partition(list + [s], others, tiles + [s], durations, to)
  {
    hide Span, Tile;
    TileMore(tiles, durations, from, to);
  }

  lemma PartitionSwaps(kept: seq<Segment>, removed: seq<Segment>, tiles: seq<Segment>, durations: seq<nat>, to: nat)
    requires to <= |durations| && Partition(kept, removed, tiles, durations, to)
    ensures Partition(removed, kept, tiles, durations, to)
  {
    hide Tile;
  }

  /** One more tile, on one of the two lists. */
  method AddTile(list: seq<Segment>, ghost others: seq<Segment>, ghost tiles: seq<Segment>, durations: seq<nat>, from: nat, to: nat)
    returns (more: seq<Segment>, ghost moreTiles: seq<Segment>)
    requires from < to <= |durations| && Partition(list, others, tiles, durations, from)
    ensures more == list + [Segment(from, to, Span(durations, from, to))]
    ensures Partition(more, others, moreTiles, durations, to) && Partition(others, more, moreTiles, durations, to)
  {
    hide Partition;
    var time := Duration(durations, from, to);
    PartitionMore(list, others, tiles, durations, from, to);
    more, moreTiles := list + [Segment(from, to, time)], tiles + [Segment(from, to, time)];
    PartitionSwaps(more, others, moreTiles, durations, to);
  }

  /** The lists after the first i runs, which end at position. */
  ghost predicate Segmented(runs: seq<Run>, durations: seq<nat>, i: nat, position: nat,
                            kept: seq<Segment>, removed: seq<Segment>, tiles: seq<Segment>)
    requires i <= |runs|
  {
    && position == HomeEnd(runs[..i]) <= |durations|
    && SegmentsOf(runs[..i], durations, kept)
    && Partition(kept, removed, tiles, durations, position)
    && (removed == [] <==> NoGap(runs[..i], position))
  }

  method SegmentOne(runs: seq<Run>, durations: seq<nat>, ghost m: nat, i: nat, position: nat,
                    kept: seq<Segment>, removed: seq<Segment>, ghost tiles: seq<Segment>)
    returns (keptMore: seq<Segment>, removedMore: seq<Segment>, ghost tilesMore: seq<Segment>)
    requires InOrderRuns(runs, |durations|, m) && i < |runs|
    requires Segmented(runs, durations, i, position, kept, removed, tiles)
    ensures Segmented(runs, durations, i + 1, runs[i].home + runs[i].length, keptMore, removedMore, tilesMore)
  {
    hide Span, Partition, SegmentsOf;
    PrefixEnds(runs, |durations|, m, i);
    PrefixSteps(runs, i);
    SegmentsMore(runs, durations, kept, i);
    PartitionSwaps(kept, removed, tiles, durations, position);
    removedMore, tilesMore := removed, tiles;
    if NoGap(runs[..i], runs[i].home) { NoGapEnds(runs[..i], runs[i].home); }
    if runs[i].home > position {
      removedMore, tilesMore := AddTile(removed, kept, tiles, durations, position, runs[i].home);
    }
    keptMore, tilesMore := AddTile(kept, removedMore, tilesMore, durations, runs[i].home, runs[i].home + runs[i].length);
  }

  /** The runs' home frames are kept, and all between them removed. */
  method Segments(runs: seq<Run>, durations: seq<nat>, ghost m: nat)
    returns (kept: seq<Segment>, removed: seq<Segment>, ghost tiles: seq<Segment>)
    requires InOrderRuns(runs, |durations|, m)
    ensures SegmentsOf(runs, durations, kept)
    ensures Partition(kept, removed, tiles, durations, |durations|)
    ensures removed == [] <==> NoGap(runs, |durations|)
  {
    kept, removed, tiles := [], [], [];
    var position: nat := 0;
    assert Segmented(runs, durations, 0, 0, kept, removed, tiles);
    for i := 0 to |runs|
      invariant Segmented(runs, durations, i, position, kept, removed, tiles)
    {
      hide Segmented;
      kept, removed, tiles := SegmentOne(runs, durations, m, i, position, kept, removed, tiles);
      position := runs[i].home + runs[i].length;
    }
    assert runs[..|runs|] == runs;
    if NoGap(runs, |durations|) { NoGapEnds(runs, |durations|); }
    hide Partition, SegmentsOf;
    if position < |durations| {
      PartitionSwaps(kept, removed, tiles, durations, position);
      removed, tiles := AddTile(removed, kept, tiles, durations, position, |durations|);
    }
  }

  // ---- identical downloads ----

  function Lengths(runs: seq<Run>): (n: nat) {
    if runs == [] then 0 else Lengths(runs[..|runs| - 1]) + runs[|runs| - 1].length
  }

  lemma {:induction false} LengthsFit(runs: seq<Run>, n: nat, m: nat)
    requires InOrderRuns(runs, n, m)
    ensures Lengths(runs) <= OtherEnd(runs) <= m
  {
    if runs != [] {
      PrefixEnds(runs, n, m, |runs| - 1);
      LengthsFit(runs[..|runs| - 1], n, m);
    }
  }

  /** Runs that leave nothing out of either file pair frame i with frame i. */
  lemma {:induction false} FullCoverPairs(runs: seq<Run>, n: nat, m: nat)
    requires InOrderRuns(runs, n, m) && NoGap(runs, HomeEnd(runs)) && Lengths(runs) == OtherEnd(runs)
    ensures HomeEnd(runs) == OtherEnd(runs)
    ensures forall k | 0 <= k < |runs| :: runs[k].home == runs[k].other
  {
    if runs != [] {
      var k := |runs| - 1;
      PrefixEnds(runs, n, m, k);
      LengthsFit(runs[..k], n, m);
      NoGapEnds(runs[..k], runs[k].home);
      FullCoverPairs(runs[..k], n, m);
      assert forall l | 0 <= l < k :: runs[l] == runs[..k][l];
    }
  }

  lemma {:induction false} RunHolding(runs: seq<Run>, n: nat, i: nat) returns (k: nat)
    requires NoGap(runs, n) && i < n
    ensures k < |runs| && runs[k].home <= i < runs[k].home + runs[k].length
  {
    k := |runs| - 1;
    if i < runs[k].home {
      k := RunHolding(runs[..k], runs[k].home, i);
    }
  }

  /** When nothing of home is removed and as many frames of other are shared as
      it has, the two downloads' frames are byte for byte the same. */
  lemma IdenticalMeansEqual(runs: seq<Run>, home: Track, other: Track)
    requires Sound(runs, home, other) && NoGap(runs, |home|) && Lengths(runs) == |other|
    ensures |home| == |other| && forall i | 0 <= i < |home| :: home[i].bytes == other[i].bytes
  {
    LengthsFit(runs, |home|, |other|);
    FullCoverPairs(runs, |home|, |other|);
    forall i | 0 <= i < |home|
      ensures home[i].bytes == other[i].bytes
    {
      var k := RunHolding(runs, |home|, i);
      assert SameBytes(home, other, runs[k]);
    }
  }

  // ---- the diff ----

  const SECOND: nat := 1_000_000_000
  const UNANCHORED_MINIMUM: nat := 30 * SECOND
  const MIN_REPEATED_AD: nat := 10 * SECOND
  const MAX_MARKER: nat := 5 * SECOND
  const MIN_AUDIO_BREAK: nat := 5 * SECOND

  datatype Options = Options(minShared: nat, maxRemovedShare: real, expectedDuration: nat, durationTolerance: real,
                             trimBreakMarkers: bool, removeRepeatedAds: bool)

  datatype Result = Result(output: seq<byte>, kept: seq<Segment>, removed: seq<Segment>,
                           markers: seq<Segment>, repeats: seq<Segment>,
                           homeDuration: nat, otherDuration: nat, duration: nat, otherExtra: nat, otherBreaks: nat)

  datatype Outcome = NoSharedFrames | Identical(result: Result) | Implausible(result: Result) | Done(result: Result)

  function TrackOf(file: Mp3.File): (track: Track)
    requires Cut.WellFormed(file)
    ensures |track| == |file.frames|
  {
    seq(|file.frames|, i requires 0 <= i < |file.frames| =>
      Runs.Frame(Mp3.FrameBytes(file.data, file.frames[i]), file.frames[i].mainDataBegin))
  }

  function Durations(file: Mp3.File): (durations: seq<nat>)
    requires Cut.WellFormed(file)
    ensures |durations| == |file.frames|
  {
    seq(|file.frames|, i requires 0 <= i < |file.frames| => Mp3.Duration(file.frames[i].header))
  }

  /** What the kept runs cover of the other download. */
  function Others(kept: seq<Run>): (spans: Gaps.Spans)
    ensures |spans| == |kept|
  {
    seq(|kept|, i requires 0 <= i < |kept| => (kept[i].other, kept[i].other + kept[i].length))
  }

  /** How long the gaps between them last that are long enough to be ads, and how many they are. */
  function AdGaps(kept: seq<Run>, frames: nat, frameDuration: nat): (nat, nat) {
    Gaps.LongGaps(Others(kept), |kept| + 1, frames, frameDuration, MIN_AUDIO_BREAK)
  }

  /** Going through the gaps, one after another. */
  method OtherGaps(kept: seq<Run>, frames: nat, frameDuration: nat) returns (extra: nat, breaks: nat)
    ensures (extra, breaks) == AdGaps(kept, frames, frameDuration)
  {
    extra, breaks := 0, 0;
    var position := 0;
    ghost var spans := Others(kept);
    for i := 0 to |kept| + 1
      invariant i <= |kept| ==> position == Gaps.GapStart(spans, i)
      invariant (extra, breaks) == Gaps.LongGaps(spans, i, frames, frameDuration, MIN_AUDIO_BREAK)
    {
      var next := if i < |kept| then kept[i].other else frames;
      var gap := (next - position) * frameDuration;
      if gap >= MIN_AUDIO_BREAK {
        extra, breaks := extra + gap, breaks + 1;
      }
      position := next + if i < |kept| then kept[i].length else 0;
    }
  }

  /** That is what the frames last that lie in long stretches no kept run
      reaches into, and how many such stretches there are. */
  lemma OtherExtraIsUncovered(kept: seq<Run>, home: Track, other: Track, frameDuration: nat)
    requires Sound(kept, home, other)
    ensures AdGaps(kept, |other|, frameDuration)
            == (|Gaps.BareSteps(Others(kept), |other|, frameDuration, MIN_AUDIO_BREAK)| * frameDuration,
                |Gaps.Wholes(Others(kept), |other|, frameDuration, MIN_AUDIO_BREAK)|)
  {
    hide SameBytes;
    forall i | 0 <= i < |kept|
      ensures kept[i].other + kept[i].length <= |other|
    {
      PrefixEnds(kept, |home|, |other|, i);
    }
    hide Gaps.Bare, Gaps.Long, Gaps.Forward, Gaps.LongGaps, Gaps.BareSteps, Gaps.Wholes, Gaps.LongGapsBare, Gaps.LongGapsHoldBare;
    Gaps.ApartLeaveBare(Others(kept), |other|, frameDuration, MIN_AUDIO_BREAK);
    Gaps.GapsExactly(Others(kept), |other|, frameDuration, MIN_AUDIO_BREAK, 0);
  }

  /** How much of all is not there, as a share of it. */
  function Missing(duration: nat, all: nat): real
    requires all > 0
  {
    1.0 - duration as real / all as real
  }

  function Difference(duration: nat, expected: nat): real
    requires expected > 0
  {
    (duration as real - expected as real) / expected as real
  }

  /** The sanity checks between a diff and publishing, in exact arithmetic. */
  predicate Plausible(kept: seq<Segment>, duration: nat, homeDuration: nat, o: Options)
    requires homeDuration > 0
  {
    && kept != []
    && (o.maxRemovedShare > 0.0 ==> Missing(duration, homeDuration) <= o.maxRemovedShare)
    && (o.expectedDuration > 0 && o.durationTolerance > 0.0 ==>
          var expected := if o.expectedDuration < homeDuration then o.expectedDuration else homeDuration;
          Difference(duration, expected) >= -o.durationTolerance)
  }

  /** Pieces of the home file as they are reported: at so much a frame. */
  function PieceSegments(pieces: seq<Run>, frameDuration: nat): (list: seq<Segment>)
    ensures |list| == |pieces|
  {
    seq(|pieces|, i requires 0 <= i < |pieces| =>
      Segment(pieces[i].home, pieces[i].home + pieces[i].length, pieces[i].length * frameDuration))
  }

  /** Where every frame lasts as long, they last what their frames play. */
  lemma PiecesLast(pieces: seq<Run>, durations: seq<nat>, frameDuration: nat, i: nat)
    requires i < |pieces| && pieces[i].length > 0 && pieces[i].home + pieces[i].length <= |durations|
    requires forall k | 0 <= k < |durations| :: durations[k] == frameDuration
    ensures var s := PieceSegments(pieces, frameDuration)[i];
            s.start == pieces[i].home && s.end == pieces[i].home + pieces[i].length && IsSpan(s, durations)
  {
    EvenSpan(durations, frameDuration, pieces[i].home, pieces[i].home + pieces[i].length);
  }

  lemma {:induction false} EvenSpan(durations: seq<nat>, frameDuration: nat, from: nat, to: nat)
    requires from <= to <= |durations| && forall k | 0 <= k < |durations| :: durations[k] == frameDuration
    ensures Span(durations, from, to) == (to - from) * frameDuration
    decreases (to - from)
  {
    if from < to {
      EvenSpan(durations, frameDuration, from, to - 1);
      assert (to - from) * frameDuration == (to - 1 - from) * frameDuration + frameDuration;
    }
  }

  method AsSegments(pieces: seq<Run>, frameDuration: nat) returns (list: seq<Segment>)
    ensures list == PieceSegments(pieces, frameDuration)
  {
    list := [];
    for i := 0 to |pieces|
      invariant list == PieceSegments(pieces, frameDuration)[..i]
    {
      list := list + [Segment(pieces[i].home, pieces[i].home + pieces[i].length, pieces[i].length * frameDuration)];
    }
  }

  method AddUp(segments: seq<Segment>) returns (total: nat)
    ensures total == Played(segments)
  {
    total := 0;
    for i := 0 to |segments|
      invariant total == Played(segments[..i])
    {
      assert segments[..i + 1][..i] == segments[..i];
      total := total + segments[i].duration;
    }
    assert segments[..|segments|] == segments;
  }

  /** r is what one of the first n runs is trimmed to, and long enough. */
  ghost predicate TrimmedFrom(runs: seq<Run>, n: nat, home: Track, unanchored: nat, minimum: nat, r: Run)
    requires n <= |runs| && forall i | 0 <= i < |runs| :: runs[i].home + runs[i].length <= |home|
  {
    r.length >= minimum && exists i, first | 0 <= i < n :: Trims(home, runs[i], unanchored, first, Kept(r))
  }

  /** Verified runs trimmed to splice points; those left too short go. */
  method TrimAll(runs: seq<Run>, home: Track, ghost other: Track, unanchored: nat, minimum: nat) returns (kept: seq<Run>)
    requires Sound(runs, home, other) && minimum >= 1
    ensures Sound(kept, home, other)
    ensures forall r :: r in kept <==> TrimmedFrom(runs, |runs|, home, unanchored, minimum, r)
  {
    kept := [];
    for i := 0 to |runs|
      invariant Sound(kept, home, other)
      invariant HomeEnd(kept) <= HomeEnd(runs[..i]) && OtherEnd(kept) <= OtherEnd(runs[..i])
      invariant forall r :: r in kept <==> TrimmedFrom(runs, i, home, unanchored, minimum, r)
    {
      PrefixEnds(runs, |home|, |other|, i);
      var trimmed := ToSegmentBoundaries(runs[i], home, unanchored);
      TrimStep(runs, i, home, unanchored, minimum, trimmed);
      if trimmed.Kept? && trimmed.run.length >= minimum {
        AppendPart(kept, trimmed.run, runs[i], home, other);
        kept := kept + [trimmed.run];
      }
    }
  }

  lemma TrimStep(runs: seq<Run>, i: nat, home: Track, unanchored: nat, minimum: nat, t: Trimmed)
    requires i < |runs| && forall k | 0 <= k < |runs| :: runs[k].home + runs[k].length <= |home|
    requires exists first :: Trims(home, runs[i], unanchored, first, t)
    ensures forall r ::
        TrimmedFrom(runs, i + 1, home, unanchored, minimum, r)
        <==> TrimmedFrom(runs, i, home, unanchored, minimum, r) || (r.length >= minimum && t == Kept(r))
  {
    hide Trims;
    var first :| Trims(home, runs[i], unanchored, first, t);
    forall other, u | Trims(home, runs[i], unanchored, other, u)
      ensures u == t
    {
      TrimsUnique(home, runs[i], unanchored, first, t, other, u);
    }
  }

  /** How many whole frames fit in a time. */
  function InFrames(time: nat, frameDuration: nat): (n: nat)
    requires frameDuration > 0
  {
    time / frameDuration
  }

  /** The runs after each stage, and what was removed as repeats and as markers. */
  datatype Trace = Trace(chain: seq<Run>, aligned: seq<Run>, shared: seq<Run>, show: seq<Run>,
                         unrepeated: seq<Run>, repeats: seq<Run>, markers: seq<Run>)

  /** Aligned from a longest chain of anchors, then cut at the first difference. */
  ghost predicate SharedBy(home: Track, other: Track, hash: seq<byte> -> int, gram: seq<int> -> int, t: Trace) {
    var h, o := Repeats.Hashes(home, hash), Repeats.Hashes(other, hash);
    && AnchorChain(Grams(h, gram), Grams(o, gram), t.chain)
    && (forall better: seq<Run> | AnchorChain(Grams(h, gram), Grams(o, gram), better) :: |better| <= |t.chain|)
    && InOrderRuns(t.aligned, |home|, |other|)
    && (forall p | 0 <= p < |t.aligned| :: GrownFrom(h, o, t.chain, t.aligned, p))
    && (forall a | a in t.chain :: Covered(t.aligned, a)) && GrownInTurn(h, o, t.chain, t.aligned)
    && t.shared == Verified(t.aligned, home, other)
  }

  /** Then trimmed to splice points. */
  ghost predicate ShownBy(home: Track, other: Track, options: Options, frameDuration: nat, t: Trace)
    requires frameDuration > 0
  {
    && Sound(t.shared, home, other) && Sound(t.show, home, other)
    && forall r :: r in t.show <==> TrimmedFrom(t.shared, |t.shared|, home, InFrames(UNANCHORED_MINIMUM, frameDuration), Minimum(options, frameDuration), r)
  }

  /** Then without repeats, when asked, and after that without markers. */
  ghost predicate RemovedBy(home: Track, other: Track, options: Options, frameDuration: nat, t: Trace, runs: seq<Run>)
    requires frameDuration > 0
  {
    && Sound(t.show, home, other) && Sound(t.unrepeated, home, other)
    && (if options.removeRepeatedAds
        then var shortest := InFrames(MIN_REPEATED_AD, frameDuration);
             && (forall r :: r in t.unrepeated <==>
                  Repeats.LeftIn(t.show, |t.show|, home, other, shortest, Minimum(options, frameDuration), r))
             && (forall r :: r in t.repeats <==> Repeats.RepeatIn(t.show, |t.show|, home, other, shortest, r))
             && Repeats.InHomeOrder(t.repeats)
        else t.unrepeated == t.show && t.repeats == [])
    && if options.trimBreakMarkers then Markers.TrimsTo(home, t.unrepeated, InFrames(MAX_MARKER, frameDuration), runs, t.markers)
       else runs == t.unrepeated && t.markers == []
  }

  /** The shortest run that counts, in frames. */
  function Minimum(options: Options, frameDuration: nat): (m: nat)
    requires frameDuration > 0
    ensures m >= 1
  {
    var frames := InFrames(options.minShared + frameDuration - 1, frameDuration);
    if frames < 1 then 1 else frames
  }

  /** As many frames as fit in a time, and as last the shortest run that counts:
      one at least. */
  lemma FramesFit(time: nat, frameDuration: nat, options: Options)
    requires frameDuration > 0
    ensures var n := InFrames(time, frameDuration); n * frameDuration <= time < (n + 1) * frameDuration
    ensures var m := Minimum(options, frameDuration);
            m >= 1 && m * frameDuration >= options.minShared && (m > 1 ==> (m - 1) * frameDuration < options.minShared)
  {
    Quotient(time, frameDuration);
    Quotient(options.minShared + frameDuration - 1, frameDuration);
  }

  lemma Quotient(a: nat, b: nat)
    requires b > 0
    ensures a / b * b <= a < (a / b + 1) * b
  {
  }

  /** Aligned, and every run cut at its first differing byte. */
  method SharedRuns(home: Track, other: Track, hash: seq<byte> -> int, gram: seq<int> -> int) returns (runs: seq<Run>, ghost t: Trace)
    ensures Sound(runs, home, other)
    ensures SharedBy(home, other, hash, gram, t) && t.shared == runs
  {
    var homeHashes, otherHashes := Repeats.Hashes(home, hash), Repeats.Hashes(other, hash);
    var aligned, chain := Align(homeHashes, otherHashes, gram);
    var list := new Run[|aligned|](i requires 0 <= i < |aligned| => aligned[i]);
    assert list[..] == aligned;
    var n := Verify(list, home, other);
    VerifiedIsSound(aligned, home, other);
    runs := list[..n];
    t := Trace(chain, aligned, runs, [], [], [], []);
  }

  lemma TimesArePositive(file: Mp3.File)
    requires Cut.WellFormed(file) && file.frames != []
    ensures forall i | 0 <= i < |file.frames| :: Durations(file)[i] > 0
    ensures Span(Durations(file), 0, |file.frames|) > 0
  {
    forall i | 0 <= i < |file.frames|
      ensures Durations(file)[i] > 0
    {
      Mp3.FramesHoldTheirHeaders(file.frames[i].header);
    }
  }

  lemma SegmentsAreOrdered(runs: seq<Run>, durations: seq<nat>, segments: seq<Segment>, m: nat)
    requires InOrderRuns(runs, |durations|, m) && SegmentsOf(runs, durations, segments)
    ensures Ordered(segments, |durations|)
  {
  }

  /** What the diff hands over: the kept segments are sound runs' home frames,
      with the removed ones they tile the file, and the output is either the
      home file untouched or the cut file of those segments. */
  ghost predicate Delivered(home: Mp3.File, other: Mp3.File, runs: seq<Run>, tiles: seq<Segment>, r: Result)
    requires Cut.WellFormed(home) && Cut.WellFormed(other)
  {
    var durations := Durations(home);
    && Sound(runs, TrackOf(home), TrackOf(other))
    && SegmentsOf(runs, durations, r.kept) && r.kept != []
    && Partition(r.kept, r.removed, tiles, durations, |durations|)
    && r.homeDuration == Span(durations, 0, |durations|)
    && if r.removed == [] then r.output == home.data && r.duration == r.homeDuration
       else r.output == Cut.Output(home, r.kept)
            && r.duration == Played(r.kept) + Cut.PlayTime(home, Cut.SilentOnly(Cut.FilePlan(home, r.kept)))
  }

  /** The runs the removal stages leave. */
  method Remove(home: Track, other: Track, options: Options, frameDuration: nat,
                hash: seq<byte> -> int, fold: seq<int> -> int, show: seq<Run>, ghost before: Trace)
    returns (runs: seq<Run>, repeats: seq<Run>, markers: seq<Run>, ghost t: Trace)
    requires Sound(show, home, other) && frameDuration > 0 && before.show == show
    ensures Sound(runs, home, other)
    ensures t == before.(unrepeated := t.unrepeated, repeats := repeats, markers := markers)
    ensures RemovedBy(home, other, options, frameDuration, t, runs)
  {
    runs, repeats, markers := show, [], [];
    hide Sound, Markers.Survivors, Markers.TiledByMarkers, Markers.CutOff, Repeats.LeftIn, Repeats.RepeatIn, Repeats.InHomeOrder;
    if options.removeRepeatedAds {
      runs, repeats := Repeats.RemoveRepeats(runs, home, other, InFrames(MIN_REPEATED_AD, frameDuration), Minimum(options, frameDuration), hash, fold);
    }
    t := before.(unrepeated := runs, repeats := repeats, markers := []);
    if options.trimBreakMarkers {
      ghost var ts;
      hide Markers.Marker;
      runs, markers, ts := Markers.TrimMarkers(runs, home, other, InFrames(MAX_MARKER, frameDuration));
      t := t.(markers := markers);
    }
  }

  lemma {:induction false} PlayedJoin(a: seq<Segment>, b: seq<Segment>)
    ensures Played(a + b) == Played(a) + Played(b)
    decreases |b|
  {
    if b == [] {
      assert a + b == a;
    } else {
      assert (a + b)[..|a + b| - 1] == a + b[..|b| - 1];
      PlayedJoin(a, b[..|b| - 1]);
    }
  }

  lemma WithoutOne(b: seq<Segment>, k: nat)
    requires k < |b|
    ensures multiset(b[..k] + b[k + 1..]) == multiset(b) - multiset{b[k]}
  {
    assert b == b[..k] + ([b[k]] + b[k + 1..]);
  }

  lemma TakeOut(b: seq<Segment>, k: nat)
    requires k < |b|
    ensures Played(b) == Played(b[..k] + b[k + 1..]) + b[k].duration
  {
    var front, x, back := b[..k], b[k], b[k + 1..];
    PlayedOne(x);
    hide Played;
    assert b == front + ([x] + back);
    PlayedJoin(front, [x] + back);
    PlayedJoin([x], back);
    PlayedJoin(front, back);
  }

  lemma PlayedOne(s: Segment)
    ensures Played([s]) == s.duration
  {
    assert [s][..0] == [];
  }

  lemma {:induction false} PlayedPermuted(a: seq<Segment>, b: seq<Segment>)
    requires multiset(a) == multiset(b)
    ensures Played(a) == Played(b)
    decreases |a|
  {
    SameElements(a, b);
    if a != [] {
      var n := |a| - 1;
      assert a[n] in b;
      var k :| 0 <= k < |b| && b[k] == a[n];
      TakeOut(b, k);
      TakeOut(a, n);
      WithoutOne(b, k);
      WithoutOne(a, n);
      assert a[..n] + a[n + 1..] == a[..n];
      hide Played;
      PlayedPermuted(a[..n], b[..k] + b[k + 1..]);
    }
  }

  /** Kept and removed together play exactly what the home file plays. */
  lemma PartsPlayAll(kept: seq<Segment>, removed: seq<Segment>, tiles: seq<Segment>, durations: seq<nat>)
    requires Partition(kept, removed, tiles, durations, |durations|)
    ensures Played(kept) + Played(removed) == Span(durations, 0, |durations|)
  {
    TilesPlayAll(tiles, durations, |durations|);
    PlayedJoin(kept, removed);
    PlayedPermuted(tiles, kept + removed);
  }

  method AddLengths(runs: seq<Run>) returns (total: nat)
    ensures total == Lengths(runs)
  {
    total := 0;
    for i := 0 to |runs|
      invariant total == Lengths(runs[..i])
    {
      assert runs[..i + 1][..i] == runs[..i];
      total := total + runs[i].length;
    }
    assert runs[..|runs|] == runs;
  }

  /** What is reported of the runs left, whatever comes of them. */
  ghost predicate Reported(home: Mp3.File, other: Mp3.File, left: seq<Run>, tiles: seq<Segment>, frameDuration: nat, r: Result)
    requires Cut.WellFormed(home) && Cut.WellFormed(other)
  {
    var durations := Durations(home);
    && SegmentsOf(left, durations, r.kept) && Partition(r.kept, r.removed, tiles, durations, |durations|)
    && r.homeDuration == Span(durations, 0, |durations|)
    && r.otherDuration == Span(Durations(other), 0, |other.frames|)
    && (r.otherExtra, r.otherBreaks) == AdGaps(left, |other.frames|, frameDuration)
  }

  /** It passes the sanity checks, before any silence is added. */
  predicate Passes(r: Result, options: Options) {
    r.homeDuration > 0 && Plausible(r.kept, Played(r.kept), r.homeDuration, options)
  }

  function Part(share: real, all: nat): real {
    share * all as real
  }

  /** Something is kept, and no more of the home file removed than may be; what
      is kept is not too short for the home file or for what the feed says. */
  predicate Meets(kept: seq<Segment>, plays: nat, removed: nat, all: nat, o: Options) {
    && kept != []
    && (o.maxRemovedShare > 0.0 ==> removed as real <= Part(o.maxRemovedShare, all))
    && (o.expectedDuration > 0 && o.durationTolerance > 0.0 ==>
          || plays as real >= Part(1.0 - o.durationTolerance, all)
          || plays as real >= Part(1.0 - o.durationTolerance, o.expectedDuration))
  }

  /** That is what the checks let through. */
  lemma PassesExactly(home: Mp3.File, other: Mp3.File, left: seq<Run>, tiles: seq<Segment>, frameDuration: nat, r: Result, o: Options)
    requires Cut.WellFormed(home) && Cut.WellFormed(other) && Reported(home, other, left, tiles, frameDuration, r) && r.homeDuration > 0
    ensures Passes(r, o) <==> Meets(r.kept, Played(r.kept), Played(r.removed), r.homeDuration, o)
  {
    ReportedAddsUp(home, other, left, tiles, frameDuration, r);
    hide Cut.WellFormed, Reported, Plausible, Played, Meets;
    PlausibleMeans(r.kept, Played(r.kept), Played(r.removed), r.homeDuration, o);
  }

  lemma ReportedAddsUp(home: Mp3.File, other: Mp3.File, left: seq<Run>, tiles: seq<Segment>, frameDuration: nat, r: Result)
    requires Cut.WellFormed(home) && Cut.WellFormed(other) && Reported(home, other, left, tiles, frameDuration, r)
    ensures Played(r.kept) + Played(r.removed) == r.homeDuration
  {
    hide Cut.WellFormed, Partition, SegmentsOf, AdGaps, Span, Played;
    PartsPlayAll(r.kept, r.removed, tiles, Durations(home));
  }

  lemma PlausibleMeans(kept: seq<Segment>, plays: nat, removed: nat, all: nat, o: Options)
    requires plays + removed == all && all > 0
    ensures Plausible(kept, plays, all, o) <==> Meets(kept, plays, removed, all, o)
  {
    hide Missing, Difference, Part;
    Share(plays, removed, all, o.maxRemovedShare);
    Short(plays, all, o.durationTolerance);
    if o.expectedDuration > 0 {
      Short(plays, o.expectedDuration, o.durationTolerance);
      ShorterAsksLess(plays, o.expectedDuration, all, 1.0 - o.durationTolerance);
      ShorterAsksLess(plays, all, o.expectedDuration, 1.0 - o.durationTolerance);
    }
  }

  lemma Share(kept: nat, removed: nat, all: nat, share: real)
    requires kept + removed == all && all > 0
    ensures Missing(kept, all) <= share <==> removed as real <= Part(share, all)
  {
    var k, a := kept as real, all as real;
    Rest(k, a);
    ScaledUp(1.0 - k / a, share, a);
    assert removed as real == a - k;
  }

  lemma Rest(a: real, b: real)
    requires b > 0.0
    ensures (1.0 - a / b) * b == b - a
  {
    var x := a / b;
    Distributes(1.0, x, b);
    assert x * b == a;
  }

  lemma Short(kept: nat, expected: nat, tolerance: real)
    requires expected > 0
    ensures Difference(kept, expected) >= -tolerance <==> kept as real >= Part(1.0 - tolerance, expected)
  {
    var k, e := kept as real, expected as real;
    var x := (k - e) / e;
    assert x * e == k - e;
    Distributes(1.0, tolerance, e);
    Distributes(0.0, tolerance, e);
    ScaledUp(-tolerance, x, e);
  }

  lemma Distributes(a: real, b: real, c: real)
    ensures (a - b) * c == a * c - b * c
  {
  }

  lemma ShorterAsksLess(plays: nat, a: nat, b: nat, part: real)
    ensures a <= b && plays as real >= Part(part, b) ==> plays as real >= Part(part, a)
  {
    if a <= b && part >= 0.0 {
      ScaledDown(a as real, b as real, part);
    } else if part < 0.0 {
      ScaledDown(0.0, a as real, -part);
    }
  }

  lemma ScaledDown(a: real, b: real, c: real)
    requires a <= b && c >= 0.0
    ensures c * a <= c * b
  {
  }

  lemma ScaledUp(a: real, b: real, c: real)
    requires c > 0.0
    ensures a <= b <==> a * c <= b * c
  {
  }

  /** What is left, counted up. Its segments are counted anew even when
      nothing was removed, which changes nothing. */
  method CountUp(home: Mp3.File, other: Mp3.File, left: seq<Run>, durations: seq<nat>, homeDuration: nat,
                 repeats: seq<Segment>, markers: seq<Segment>) returns (r: Result, ghost tiles: seq<Segment>)
    requires Cut.WellFormed(home) && Cut.WellFormed(other) && durations == Durations(home)
    requires Sound(left, TrackOf(home), TrackOf(other)) && homeDuration == Span(durations, 0, |durations|)
    requires |durations| > 0 && durations[0] > 0
    ensures Reported(home, other, left, tiles, durations[0], r)
    ensures r.repeats == repeats && r.markers == markers && r.output == [] && r.duration == Played(r.kept)
    ensures Ordered(r.kept, |home.frames|) && (r.removed == [] ==> r.duration == homeDuration)
  {
    var kept, removed, tiled := Segments(left, durations, |other.frames|);
    tiles := tiled;
    SegmentsAreOrdered(left, durations, kept, |other.frames|);
    PartsPlayAll(kept, removed, tiles, durations);
    hide Span, Segmented, Partition, SegmentsOf, Sound, AdGaps, Played, Cut.WellFormed;
    var duration := AddUp(kept);
    var otherDuration := Duration(Durations(other), 0, |other.frames|);
    var extra, breaks := OtherGaps(left, |other.frames|, durations[0]);
    r := Result([], kept, removed, markers, repeats, homeDuration, otherDuration, duration, extra, breaks);
    assert removed == [] ==> Played(removed) == 0 by {
      NothingPlays();
    }
  }

  lemma NothingPlays()
    ensures Played([]) == 0
  {
  }

  /** Weighing up what is left, and writing it out. */
  method Finish(home: Mp3.File, other: Mp3.File, options: Options, left: seq<Run>, durations: seq<nat>,
                homeDuration: nat, repeats: seq<Segment>, markers: seq<Segment>)
    returns (outcome: Outcome, ghost tiles: seq<Segment>)
    requires Cut.WellFormed(home) && Cut.WellFormed(other) && durations == Durations(home)
    requires Sound(left, TrackOf(home), TrackOf(other))
    requires homeDuration == Span(durations, 0, |durations|) && homeDuration > 0 && |durations| > 0 && durations[0] > 0
    ensures !outcome.Identical? && !outcome.NoSharedFrames?
    ensures Reported(home, other, left, tiles, durations[0], outcome.result)
    ensures outcome.result.repeats == repeats && outcome.result.markers == markers
    ensures outcome.Done? <==> Passes(outcome.result, options)
    ensures outcome.Done? ==> Delivered(home, other, left, tiles, outcome.result)
    ensures outcome.Implausible? ==> outcome.result.output == [] && outcome.result.duration == Played(outcome.result.kept)
  {
    hide Span, Partition, SegmentsOf, Sound, AdGaps, Played, Cut.WellFormed, Cut.Output, Cut.FilePlan, Cut.PlayTime, Cut.SilentOnly, Ordered;
    var result;
    result, tiles := CountUp(home, other, left, durations, homeDuration, repeats, markers);
    if !Plausible(result.kept, result.duration, homeDuration, options) {
      outcome := Implausible(result);
    } else if result.removed == [] {
      outcome := Done(result.(output := home.data));
    } else {
      var output, carried := Cut.Write(home, result.kept);
      outcome := Done(result.(output := output, duration := result.duration + carried));
    }
  }

  /** The runs that count as show: shared, checked, trimmed to splice points. */
  method ShowRuns(home: Track, other: Track, options: Options, frameDuration: nat,
                  hash: seq<byte> -> int, gram: seq<int> -> int) returns (anyShared: bool, kept: seq<Run>, ghost t: Trace)
    requires frameDuration > 0
    ensures Sound(kept, home, other) && t.show == kept && (anyShared <==> t.shared != [])
    ensures SharedBy(home, other, hash, gram, t) && ShownBy(home, other, options, frameDuration, t)
  {
    var shared;
    shared, t := SharedRuns(home, other, hash, gram);
    anyShared := shared != [];
    kept := TrimAll(shared, home, other, InFrames(UNANCHORED_MINIMUM, frameDuration), Minimum(options, frameDuration));
    t := t.(show := kept);
  }

  /** Frame by frame, the two files have the same bytes. */
  ghost predicate SameFrames(home: Mp3.File, other: Mp3.File)
    requires Cut.WellFormed(home) && Cut.WellFormed(other)
  {
    && |home.frames| == |other.frames|
    && forall i | 0 <= i < |home.frames| ::
         Mp3.FrameBytes(home.data, home.frames[i]) == Mp3.FrameBytes(other.data, other.frames[i])
  }

  lemma TracksAreFrames(home: Mp3.File, other: Mp3.File)
    requires Cut.WellFormed(home) && Cut.WellFormed(other)
    requires |home.frames| == |other.frames| && forall i | 0 <= i < |home.frames| :: TrackOf(home)[i].bytes == TrackOf(other)[i].bytes
    ensures SameFrames(home, other)
  {
    assert forall i | 0 <= i < |home.frames| :: TrackOf(home)[i].bytes == Mp3.FrameBytes(home.data, home.frames[i]);
  }

  /** What the diff answers: nothing shared, identical, or what is left when
      the removal stages have run, which is delivered unless a check refuses it. */
  ghost predicate Answers(home: Mp3.File, other: Mp3.File, options: Options, hash: seq<byte> -> int, gram: seq<int> -> int,
                          outcome: Outcome, t: Trace, runs: seq<Run>, tiles: seq<Segment>)
    requires Cut.WellFormed(home) && Cut.WellFormed(other) && home.frames != []
  {
    var durations, frameDuration, homeTrack, otherTrack := Durations(home), Durations(home)[0], TrackOf(home), TrackOf(other);
    && frameDuration > 0
    && SharedBy(homeTrack, otherTrack, hash, gram, t) && ShownBy(homeTrack, otherTrack, options, frameDuration, t)
    && (outcome.NoSharedFrames? <==> t.shared == [])
    && (outcome.Identical? <==> t.shared != [] && NoGap(t.show, |home.frames|) && Lengths(t.show) == |other.frames|)
    && match outcome {
         case NoSharedFrames => true
         case Identical(r) =>
           var all := Span(durations, 0, |home.frames|);
           && SegmentsOf(t.show, durations, r.kept)
           && r == Result([], r.kept, [], [], [], all, Span(Durations(other), 0, |other.frames|), all, 0, 0)
         case Implausible(r) =>
           && !Passes(r, options) && Weighed(home, other, options, t, runs, tiles, r)
           && r.output == [] && r.duration == Played(r.kept)
         case Done(r) =>
           && Passes(r, options) && Weighed(home, other, options, t, runs, tiles, r)
           && Delivered(home, other, runs, tiles, r)
       }
  }

  /** The result weighed: of the runs the removal stages leave. */
  ghost predicate Weighed(home: Mp3.File, other: Mp3.File, options: Options, t: Trace, runs: seq<Run>, tiles: seq<Segment>, r: Result)
    requires Cut.WellFormed(home) && Cut.WellFormed(other) && home.frames != [] && Durations(home)[0] > 0
  {
    var frameDuration := Durations(home)[0];
    && RemovedBy(TrackOf(home), TrackOf(other), options, frameDuration, t, runs)
    && Reported(home, other, runs, tiles, frameDuration, r)
    && r.repeats == PieceSegments(t.repeats, frameDuration) && r.markers == PieceSegments(t.markers, frameDuration)
  }

  /** The diff of two downloads of one format: it calls them identical only
      when their frames are, and what it delivers is what each stage in turn
      makes of the frames the two share, whatever the hashes do. */
  method Diff(home: Mp3.File, other: Mp3.File, options: Options,
              hash: seq<byte> -> int, gram: seq<int> -> int, fold: seq<int> -> int)
    returns (outcome: Outcome, ghost t: Trace, ghost runs: seq<Run>, ghost tiles: seq<Segment>)
    requires Cut.WellFormed(home) && Cut.WellFormed(other) && home.frames != []
    ensures Answers(home, other, options, hash, gram, outcome, t, runs, tiles)
    ensures outcome.Identical? ==> SameFrames(home, other)
  {
    hide Cut.WellFormed, Delivered, Reported, Passes, Sound, SegmentsOf, Partition, SharedBy, ShownBy, RemovedBy, Span, PieceSegments, Answers, Weighed, SameFrames;
    runs, tiles := [], [];
    var homeTrack, otherTrack, durations := TrackOf(home), TrackOf(other), Durations(home);
    TimesArePositive(home);
    var frameDuration := durations[0];
    var anyShared, show;
    anyShared, show, t := ShowRuns(homeTrack, otherTrack, options, frameDuration, hash, gram);
    if !anyShared {
      NothingToAnswer(home, other, options, hash, gram, t);
      return NoSharedFrames, t, [], [];
    }
    SoundIsInOrder(show, homeTrack, otherTrack);
    var kept, removed, tiled := Segments(show, durations, |otherTrack|);
    var homeDuration := Duration(durations, 0, |durations|);
    var otherShared := AddLengths(show);
    if removed == [] && otherShared == |otherTrack| {
      IdenticalMeansEqual(show, homeTrack, otherTrack);
      TracksAreFrames(home, other);
      var otherDuration := Duration(Durations(other), 0, |otherTrack|);
      PartsPlayAll(kept, removed, tiled, durations);
      var duration := AddUp(kept);
      outcome := Identical(Result([], kept, removed, [], [], homeDuration, otherDuration, duration, 0, 0));
      SameToAnswer(home, other, options, hash, gram, t, outcome.result);
      return;
    }
    ghost var before := t;
    var left, repeatRuns, markerRuns;
    left, repeatRuns, markerRuns, t := Remove(homeTrack, otherTrack, options, frameDuration, hash, fold, show, t);
    StagesKept(homeTrack, otherTrack, options, frameDuration, hash, gram, before, t);
    var repeats := AsSegments(repeatRuns, frameDuration);
    var markers := AsSegments(markerRuns, frameDuration);
    runs := left;
    outcome, tiles := Finish(home, other, options, left, durations, homeDuration, repeats, markers);
    LeftToAnswer(home, other, options, hash, gram, outcome, t, runs, tiles);
  }

  lemma NothingToAnswer(home: Mp3.File, other: Mp3.File, options: Options, hash: seq<byte> -> int, gram: seq<int> -> int, t: Trace)
    requires Cut.WellFormed(home) && Cut.WellFormed(other) && home.frames != [] && Durations(home)[0] > 0
    requires SharedBy(TrackOf(home), TrackOf(other), hash, gram, t) && ShownBy(TrackOf(home), TrackOf(other), options, Durations(home)[0], t)
    requires t.shared == []
    ensures Answers(home, other, options, hash, gram, NoSharedFrames, t, [], [])
  {
    hide SharedBy, ShownBy, Cut.WellFormed;
  }

  lemma SameToAnswer(home: Mp3.File, other: Mp3.File, options: Options, hash: seq<byte> -> int, gram: seq<int> -> int, t: Trace, r: Result)
    requires Cut.WellFormed(home) && Cut.WellFormed(other) && home.frames != [] && Durations(home)[0] > 0
    requires SharedBy(TrackOf(home), TrackOf(other), hash, gram, t) && ShownBy(TrackOf(home), TrackOf(other), options, Durations(home)[0], t)
    requires t.shared != [] && NoGap(t.show, |home.frames|) && Lengths(t.show) == |other.frames|
    requires SegmentsOf(t.show, Durations(home), r.kept)
    requires var all := Span(Durations(home), 0, |home.frames|);
             r == Result([], r.kept, [], [], [], all, Span(Durations(other), 0, |other.frames|), all, 0, 0)
    ensures Answers(home, other, options, hash, gram, Identical(r), t, [], [])
  {
    hide SharedBy, ShownBy, Cut.WellFormed, Span, SegmentsOf;
  }

  lemma LeftToAnswer(home: Mp3.File, other: Mp3.File, options: Options, hash: seq<byte> -> int, gram: seq<int> -> int,
                     outcome: Outcome, t: Trace, runs: seq<Run>, tiles: seq<Segment>)
    requires Cut.WellFormed(home) && Cut.WellFormed(other) && home.frames != [] && Durations(home)[0] > 0
    requires SharedBy(TrackOf(home), TrackOf(other), hash, gram, t) && ShownBy(TrackOf(home), TrackOf(other), options, Durations(home)[0], t)
    requires t.shared != [] && !(NoGap(t.show, |home.frames|) && Lengths(t.show) == |other.frames|)
    requires outcome.Done? || outcome.Implausible?
    requires RemovedBy(TrackOf(home), TrackOf(other), options, Durations(home)[0], t, runs)
    requires Reported(home, other, runs, tiles, Durations(home)[0], outcome.result)
    requires outcome.result.repeats == PieceSegments(t.repeats, Durations(home)[0])
    requires outcome.result.markers == PieceSegments(t.markers, Durations(home)[0])
    requires outcome.Done? <==> Passes(outcome.result, options)
    requires outcome.Done? ==> Delivered(home, other, runs, tiles, outcome.result)
    requires outcome.Implausible? ==> outcome.result.output == [] && outcome.result.duration == Played(outcome.result.kept)
    ensures Answers(home, other, options, hash, gram, outcome, t, runs, tiles)
  {
    hide SharedBy, ShownBy, Cut.WellFormed, RemovedBy, Reported, Passes, Delivered, Played, NoGap, Lengths, Durations, TrackOf;
  }

  lemma StagesKept(home: Track, other: Track, options: Options, frameDuration: nat, hash: seq<byte> -> int, gram: seq<int> -> int, t: Trace, u: Trace)
    requires frameDuration > 0 && u == t.(unrepeated := u.unrepeated, repeats := u.repeats, markers := u.markers)
    requires SharedBy(home, other, hash, gram, t) && ShownBy(home, other, options, frameDuration, t)
    ensures SharedBy(home, other, hash, gram, u) && ShownBy(home, other, options, frameDuration, u)
  {
  }

  lemma SoundIsInOrder(runs: seq<Run>, home: Track, other: Track)
    requires Sound(runs, home, other)
    ensures InOrderRuns(runs, |home|, |other|)
  {
  }

  // ---- what the delivered file is ----

  function Partner(r: Run, i: nat): nat
    requires r.home <= i
  {
    i - r.home + r.other
  }

  /** The kept audio is a common subsequence of the two downloads: each kept
      frame is byte for byte its partner, and partners keep the frames' order. */
  lemma CommonSubsequence(runs: seq<Run>, home: Track, other: Track, p: nat, i: nat, q: nat, j: nat)
    requires Sound(runs, home, other) && p < |runs| && q < |runs|
    requires runs[p].home <= i < runs[p].home + runs[p].length && runs[q].home <= j < runs[q].home + runs[q].length
    ensures i < |home| && Partner(runs[p], i) < |other| && home[i].bytes == other[Partner(runs[p], i)].bytes
    ensures i < j ==> Partner(runs[p], i) < Partner(runs[q], j)
  {
    assert SameBytes(home, other, runs[p]);
    if p > q { assert runs[q].home + runs[q].length <= runs[p].home; }
  }

  lemma {:induction false} SpanIsPlayTime(file: Mp3.File, from: nat, to: nat)
    requires Cut.WellFormed(file) && from <= to <= |file.frames|
    ensures Cut.PlayTime(file, Stretch(from, to, false)) == Span(Durations(file), from, to)
    decreases (to - from)
  {
    hide Mp3.Duration, Mp3.Genuine;
    if from < to {
      var s := Stretch(from, to, false);
      assert s[..|s| - 1] == Stretch(from, to - 1, false);
      SpanIsPlayTime(file, from, to - 1);
    }
  }

  /** A cut file as delivered: of ordered, timed segments, with its duration. */
  ghost predicate CutDelivered(home: Mp3.File, r: Result)
    requires Cut.WellFormed(home)
  {
    && Ordered(r.kept, |home.frames|) && RoundTrip.Timed(home, r.kept)
    && r.output == Cut.Output(home, r.kept)
    && r.duration == Played(r.kept) + Cut.PlayTime(home, Cut.SilentOnly(Cut.FilePlan(home, r.kept)))
  }

  lemma KeptAreTimed(home: Mp3.File, kept: seq<Segment>, runs: seq<Run>)
    requires Cut.WellFormed(home) && Ordered(kept, |home.frames|) && SegmentsOf(runs, Durations(home), kept)
    ensures RoundTrip.Timed(home, kept)
  {
    hide Cut.PlayTime, Span;
    forall i | 0 <= i < |kept|
      ensures kept[i].duration == Cut.PlayTime(home, Stretch(kept[i].start, kept[i].end, false))
    {
      SpanIsPlayTime(home, kept[i].start, kept[i].end);
    }
  }

  /** What the diff delivers with anything removed is such a cut file, and what
      it keeps and removes add up to the home file. */
  lemma DeliveredIsCut(home: Mp3.File, other: Mp3.File, runs: seq<Run>, tiles: seq<Segment>, r: Result)
    requires Cut.WellFormed(home) && Cut.WellFormed(other) && Delivered(home, other, runs, tiles, r) && r.removed != []
    ensures CutDelivered(home, r) && Played(r.kept) + Played(r.removed) == r.homeDuration
  {
    hide Cut.WellFormed, Cut.PlayTime, Cut.SilentOnly, Cut.FilePlan, Cut.Output, Span, Sound;
    KeptAreTimed(home, r.kept, runs);
    PartsPlayAll(r.kept, r.removed, tiles, Durations(home));
  }

  /** Read back, it plays exactly the duration reported. */
  lemma DeliveredReadsBack(home: Mp3.File, r: Result, parsed: Mp3.File)
    requires Cut.WellFormed(home) && CutDelivered(home, r)
    requires Mp3.ParseFile(r.output) == Some(parsed) && RoundTrip.ReadsBack(home, Cut.FilePlan(home, r.kept), Some(parsed))
    ensures (forall f | f in parsed.frames :: f.header.sampleRate > 0) && RoundTrip.TimeOf(parsed.frames) == r.duration
  {
    hide Mp3.ParseFile, RoundTrip.ReadsBack, Cut.WellFormed, Cut.PlayTime, Cut.SilentOnly, Cut.FilePlan, RoundTrip.TimeOf, RoundTrip.Timed;
    RoundTrip.DurationReadBack(home, r.kept, parsed);
  }
}
