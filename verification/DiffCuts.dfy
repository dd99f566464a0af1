/** The diff's stages in seconds: how much trimming, the removal of repeats and
    the trimming of markers may take, at what one frame plays. */
module DiffCuts {
  import opened Runs
  import opened Boundaries
  import opened FrameDiff
  import Repeats
  import RepeatCuts
  import Markers
  import MarkerCuts

  const NANOSECONDS: nat := 1_000_000_000

  /** As many frames last less than the time, or at most as long. */
  lemma Lasts(n: nat, time: nat, frameDuration: nat)
    requires frameDuration > 0
    ensures n < InFrames(time, frameDuration) ==> n * frameDuration < time
    ensures n <= InFrames(time, frameDuration) <==> n * frameDuration <= time
  {
    FramesFit(time, frameDuration, Options(0, 0.0, 0, 0.0, false, false));
    var m := InFrames(time, frameDuration);
    hide InFrames;
    Times(n, m, frameDuration);
    Times(m + 1, n, frameDuration);
  }

  lemma Times(a: nat, b: nat, c: nat)
    requires c > 0
    ensures a <= b ==> a * c <= b * c
    ensures a < b ==> a * c < b * c
  {
  }

  /** A run that counts as show is a shared one, less what lasts under thirty
      seconds at either end and holds no splice point, and it lasts as long as
      it must. */
  lemma ShownInSeconds(home: Track, other: Track, options: Options, frameDuration: nat, t: Trace, r: Run) returns (c: Run)
    requires 0 < frameDuration <= 30 * NANOSECONDS && ShownBy(home, other, options, frameDuration, t) && r in t.show
    ensures c in t.shared && PartOf(r, c) && r.length * frameDuration >= options.minShared
    ensures (r.home - c.home) * frameDuration < 30 * NANOSECONDS
    ensures (c.home + c.length - (r.home + r.length)) * frameDuration < 30 * NANOSECONDS
    ensures c.home + c.length <= |home| && forall i | c.home <= i < r.home || r.home + r.length < i <= c.home + c.length :: !Clean(home, i)
  {
    hide *;
    var unanchored, first;
    unanchored, c, first := TrimmedOf(home, other, options, frameDuration, t, r);
    TrimmedEdges(home, c, unanchored, first, r);
    TrimsLittle(home, c, unanchored, first, Kept(r));
    EndsLast(home, frameDuration, c, r, unanchored);
  }

  lemma TrimmedOf(home: Track, other: Track, options: Options, frameDuration: nat, t: Trace, r: Run)
      returns (unanchored: nat, c: Run, first: nat)
    requires 0 < frameDuration <= 30 * NANOSECONDS && ShownBy(home, other, options, frameDuration, t) && r in t.show
    ensures unanchored == InFrames(30 * NANOSECONDS, frameDuration) > 0
    ensures c in t.shared && c.length > 0 && c.home + c.length <= |home| && Trims(home, c, unanchored, first, Kept(r))
    ensures r.length * frameDuration >= options.minShared
  {
    unanchored := InFrames(UNANCHORED_MINIMUM, frameDuration);
    var minimum := Minimum(options, frameDuration);
    assert TrimmedFrom(t.shared, |t.shared|, home, unanchored, minimum, r);
    FramesFit(UNANCHORED_MINIMUM, frameDuration, options);
    hide Trims, InFrames, Minimum, SameBytes;
    Lasts(1, UNANCHORED_MINIMUM, frameDuration);
    Times(minimum, r.length, frameDuration);
    var i;
    i, first :| 0 <= i < |t.shared| && Trims(home, t.shared[i], unanchored, first, Kept(r));
    c := t.shared[i];
  }

  lemma EndsLast(home: Track, frameDuration: nat, c: Run, r: Run, unanchored: nat)
    requires frameDuration > 0 && unanchored == InFrames(30 * NANOSECONDS, frameDuration) && PartOf(r, c)
    requires r.home - c.home < unanchored && c.home + c.length - (r.home + r.length) < unanchored
    ensures (r.home - c.home) * frameDuration < 30 * NANOSECONDS
    ensures (c.home + c.length - (r.home + r.length)) * frameDuration < 30 * NANOSECONDS
  {
    hide InFrames;
    Lasts(r.home - c.home, 30 * NANOSECONDS, frameDuration);
    Lasts(c.home + c.length - (r.home + r.length), 30 * NANOSECONDS, frameDuration);
  }

  /** A piece of the show is removed as a repeat exactly when it goes from one
      splice point to the next, with one more frame would last more than ten
      seconds, and has the bytes of a piece of either download outside the show. */
  lemma RepeatsInSeconds(home: Track, other: Track, options: Options, frameDuration: nat, t: Trace, runs: seq<Run>, from: nat, to: nat)
    requires frameDuration > 0 && RemovedBy(home, other, options, frameDuration, t, runs) && options.removeRepeatedAds && from < to
    ensures Run(from, 0, to - from) in t.repeats <==>
            && (exists c | c in t.show :: c.home <= from && to <= c.home + c.length)
            && RepeatCuts.Between(home, from, to) && (to - from + 1) * frameDuration > 10 * NANOSECONDS
            && RepeatCuts.CopyOfAd(t.show, home, other, from, to)
  {
    hide *;
    var shortest := RepeatsMean(home, other, options, frameDuration, t, runs);
    RepeatCuts.RemovedExactly(t.show, home, other, shortest, t.repeats, from, to);
    Lasts(to - from + 1, 10 * NANOSECONDS, frameDuration);
  }

  lemma RepeatsMean(home: Track, other: Track, options: Options, frameDuration: nat, t: Trace, runs: seq<Run>) returns (shortest: nat)
    requires frameDuration > 0 && RemovedBy(home, other, options, frameDuration, t, runs) && options.removeRepeatedAds
    ensures shortest == InFrames(10 * NANOSECONDS, frameDuration) && Sound(t.show, home, other)
    ensures forall r :: r in t.repeats <==> Repeats.RepeatIn(t.show, |t.show|, home, other, shortest, r)
  {
    hide Repeats.LeftIn, Repeats.RepeatIn, Repeats.InHomeOrder, Markers.TrimsTo, InFrames, Sound;
    shortest := InFrames(MIN_REPEATED_AD, frameDuration);
  }

  /** No frame removed as a repeat is left, and what is left lasts as long as it must. */
  lemma RepeatsAreGone(home: Track, other: Track, options: Options, frameDuration: nat, t: Trace, runs: seq<Run>, repeat: Run, left: Run, i: nat)
    requires frameDuration > 0 && RemovedBy(home, other, options, frameDuration, t, runs) && options.removeRepeatedAds
    requires repeat in t.repeats && left in t.unrepeated
    ensures !(Repeats.Covers(repeat, i) && Repeats.Covers(left, i))
  {
    hide Repeats.LeftIn, Repeats.RepeatIn, Markers.TrimsTo, Repeats.Covers, Sound;
    RepeatCuts.RemovedAreGone(t.show, home, other, InFrames(MIN_REPEATED_AD, frameDuration), Minimum(options, frameDuration), repeat, left, i);
  }

  /** A marker removed lasts five seconds at most, and the home file has its
      bytes a second time. */
  lemma MarkersInSeconds(home: Track, other: Track, options: Options, frameDuration: nat, t: Trace, runs: seq<Run>, m: Run) returns (twin: nat)
    requires frameDuration > 0 && RemovedBy(home, other, options, frameDuration, t, runs) && options.trimBreakMarkers && m in t.markers
    ensures 0 < m.length && m.length * frameDuration <= 5 * NANOSECONDS
    ensures twin != m.home && m.home + m.length <= |home| && twin + m.length <= |home|
    ensures forall i | m.home <= i < m.home + m.length :: home[i].bytes == home[i - m.home + twin].bytes
  {
    var longest := InFrames(MAX_MARKER, frameDuration);
    hide InFrames, Markers.Marker, Sound, Repeats.LeftIn, Repeats.RepeatIn;
    var g := MarkerCuts.ReportedIsMarker(home, t.unrepeated, longest, runs, t.markers, m);
    var other := MarkerCuts.MarkersAreCopies(home, t.unrepeated, longest, g);
    twin := other.start;
    MarkerCuts.MarkersAreShort(home, t.unrepeated, longest, g);
    Lasts(m.length, MAX_MARKER, frameDuration);
  }
}
