/** What the audio comparison does with its cuts: the frames kept and removed
    are in order and timed, so the cut file is the same kind as the frame
    diff's, and reads back and decodes like it. */
module AudioCut {
  import opened Common
  import opened Reservoir
  import opened AudioRuns
  import Cut
  import FrameDiff
  import Gaps
  import Mp3
  import RoundTrip
  import Unmatched

  /** What is kept and removed is in order, and each segment lasts what its
      frames do: all that writing the cut file asks for. */
  lemma SortedMayBeWritten(file: Mp3.File, kept: seq<Segment>, removed: seq<Segment>, cuts: seq<(nat, nat)>)
    requires Cut.WellFormed(file) && SortsAll(kept, removed, FrameDiff.Durations(file), cuts)
    ensures Ordered(kept, |file.frames|) && Ordered(removed, |file.frames|) && RoundTrip.Timed(file, kept)
    ensures forall s | s in kept || s in removed :: FrameDiff.IsSpan(s, FrameDiff.Durations(file))
  {
    hide Cut.WellFormed, Cut.PlayTime, AllCut, FrameDiff.Tile, FrameDiff.Span;
    var durations := FrameDiff.Durations(file);
    var tiles :| Sorted(kept, removed, tiles, durations, cuts, |durations|);
    assert Sorted(kept, removed, tiles, durations, cuts, |durations|);
    FrameDiff.PartsAreSpans(kept, removed, tiles, durations);
    RoundTrip.RatesAreKnown(file);
    forall i | 0 <= i < |kept|
      ensures kept[i].duration == Cut.PlayTime(file, Stretch(kept[i].start, kept[i].end, false))
    {
      assert kept[i] in kept;
      FrameDiff.SpanIsPlayTime(file, kept[i].start, kept[i].end);
    }
  }

  datatype AudioOutcome =
    | Identical(kept: seq<Segment>)
    | Implausible(kept: seq<Segment>, removed: seq<Segment>)
    | Done(kept: seq<Segment>, removed: seq<Segment>, output: seq<byte>, duration: nat)

  /** What the audio comparison delivers, from its cuts and the other
      download's own stretches on: nothing when nothing differs or too much is
      gone, the home file itself when nothing of it is cut, and else its cut
      file, with what it plays. */
  ghost predicate Delivered(file: Mp3.File, cuts: seq<(nat, nat)>, otherBreaks: nat, options: FrameDiff.Options, o: AudioOutcome)
    requires Cut.WellFormed(file) && FrameDiff.Span(FrameDiff.Durations(file), 0, |file.frames|) > 0
  {
    var durations := FrameDiff.Durations(file);
    var removed := if o.Identical? then [] else o.removed;
    var plausible := FrameDiff.Plausible(o.kept, Played(o.kept), FrameDiff.Span(durations, 0, |durations|), options);
    && SortsAll(o.kept, removed, durations, cuts) && Ordered(o.kept, |file.frames|)
    && (o.Identical? <==> removed == [] && otherBreaks == 0)
    && (o.Implausible? <==> !(removed == [] && otherBreaks == 0) && !plausible)
    && (o.Done? && removed == [] ==> o.output == file.data && o.duration == Played(o.kept))
    && (o.Done? && removed != [] ==>
          && o.output == Cut.Output(file, o.kept)
          && o.duration == Played(o.kept) + Cut.PlayTime(file, Cut.SilentOnly(Cut.FilePlan(file, o.kept))))
  }

  method CutByAudio(file: Mp3.File, cuts: seq<(nat, nat)>, otherBreaks: nat, options: FrameDiff.Options) returns (o: AudioOutcome)
    requires Cut.WellFormed(file) && FrameDiff.Span(FrameDiff.Durations(file), 0, |file.frames|) > 0
    ensures Delivered(file, cuts, otherBreaks, options, o)
  {
    hide Cut.WellFormed, Cut.PlayTime, Cut.SilentOnly, Cut.FilePlan, Cut.Output, FrameDiff.Span, FrameDiff.Plausible, SortsAll, Played;
    var durations := FrameDiff.Durations(file);
    var homeDuration := FrameDiff.Duration(durations, 0, |durations|);
    var kept, removed := FrameSegments(durations, cuts);
    SortedMayBeWritten(file, kept, removed, cuts);
    hide Ordered, RoundTrip.Timed, FrameDiff.IsSpan;
    var duration := FrameDiff.AddUp(kept);
    if removed == [] && otherBreaks == 0 {
      return Identical(kept);
    }
    if !FrameDiff.Plausible(kept, duration, homeDuration, options) {
      return Implausible(kept, removed);
    }
    if removed == [] {
      return Done(kept, removed, file.data, duration);
    }
    var output, carried := Cut.Write(file, kept);
    o := Done(kept, removed, output, duration + carried);
  }

  /** The downloads are taken for identical only if no frame's middle is in a
      cut and no long stretch of the other download is left bare. */
  lemma IdenticalLeavesNothing(file: Mp3.File, runs: seq<AudioRun>, otherSize: nat, cuts: seq<(nat, nat)>, options: FrameDiff.Options, o: AudioOutcome)
    requires Cut.WellFormed(file) && FrameDiff.Span(FrameDiff.Durations(file), 0, |file.frames|) > 0
    requires LinesUp(runs, |runs|) && Delivered(file, cuts, Own(runs, otherSize).1, options, o) && o.Identical?
    ensures forall i | 0 <= i < |file.frames| :: !IsCut(FrameDiff.Durations(file), cuts, i)
    ensures Gaps.Wholes(Others(runs), otherSize, 1, MIN_BREAK) == {}
  {
    hide Cut.WellFormed, FrameDiff.Span, FrameDiff.Plausible, SortsAll, IsCut, Gaps.Wholes, Gaps.LongGaps, LinesUp;
    Unmatched.OwnExactly(runs, otherSize);
    forall i | 0 <= i < |file.frames|
      ensures !IsCut(FrameDiff.Durations(file), cuts, i)
    {
      MiddleDecides(o.kept, [], FrameDiff.Durations(file), cuts, i);
    }
  }

  /** Such a cut file, where it reads back, plays exactly the duration reported,
      and each kept frame finds in it the bytes it borrowed at home. */
  lemma AudioCutReadsBack(file: Mp3.File, cuts: seq<(nat, nat)>, otherBreaks: nat, options: FrameDiff.Options, o: AudioOutcome,
                          parsed: Mp3.File, j: nat)
    requires Cut.WellFormed(file) && FrameDiff.Span(FrameDiff.Durations(file), 0, |file.frames|) > 0
    requires Delivered(file, cuts, otherBreaks, options, o) && o.Done? && o.removed != []
    requires Mp3.ParseFile(o.output) == Some(parsed) && RoundTrip.ReadsBack(file, Cut.FilePlan(file, o.kept), Some(parsed))
    requires j < |Cut.FilePlan(file, o.kept)| && !Cut.FilePlan(file, o.kept)[j].silent
    requires NeverBackwards(Cut.FrameSizes(file), Cut.Begins(file))
    ensures (forall f | f in parsed.frames :: f.header.sampleRate > 0) && RoundTrip.TimeOf(parsed.frames) == o.duration
    ensures var k := Cut.FilePlan(file, o.kept)[j].index;
            var n := parsed.frames[j].mainDataBegin;
            && n == file.frames[k].mainDataBegin
            && (n <= |Flatten(RoundTrip.HomeData(file)[..k])| ==>
                  && (forall f | f in parsed.frames :: Mp3.Inside(parsed.data, f))
                  && n <= |Flatten(RoundTrip.DataOf(parsed)[..j])|
                  && Reservoir.Last(Flatten(RoundTrip.DataOf(parsed)[..j]), n) == Reservoir.Last(Flatten(RoundTrip.HomeData(file)[..k]), n))
  {
    hide *;
    WhatIsDelivered(file, cuts, otherBreaks, options, o);
    SortedMayBeWritten(file, o.kept, o.removed, cuts);
    RoundTrip.DurationReadBack(file, o.kept, parsed);
    RoundTrip.CutDecodes(file, o.kept, parsed, j);
  }

  lemma WhatIsDelivered(file: Mp3.File, cuts: seq<(nat, nat)>, otherBreaks: nat, options: FrameDiff.Options, o: AudioOutcome)
    requires Cut.WellFormed(file) && FrameDiff.Span(FrameDiff.Durations(file), 0, |file.frames|) > 0
    requires Delivered(file, cuts, otherBreaks, options, o) && o.Done? && o.removed != []
    ensures SortsAll(o.kept, o.removed, FrameDiff.Durations(file), cuts) && Ordered(o.kept, |file.frames|)
    ensures o.output == Cut.Output(file, o.kept)
    ensures o.duration == Played(o.kept) + Cut.PlayTime(file, Cut.SilentOnly(Cut.FilePlan(file, o.kept)))
  {
    hide Cut.WellFormed, Cut.PlayTime, Cut.SilentOnly, Cut.FilePlan, Cut.Output, SortsAll, FrameDiff.Plausible, FrameDiff.Span;
  }
}
