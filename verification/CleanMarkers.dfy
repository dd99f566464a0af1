/** In the diff, a marker found by scanning is a whole spliced segment: a
    splice point at both ends. trimMarkers itself looks at one of them; the
    stages before it see to the other. */
module CleanMarkers {
  import opened Runs
  import opened Boundaries
  import Repeats
  import Markers
  import Mp3
  import Cut
  import FrameDiff

  /** Each edge of a run is a splice point or has none within unanchored frames
      inside it, and then the run is at least that long. */
  ghost predicate Edged(frames: Track, r: Run, unanchored: nat) {
    var end := r.home + r.length;
    && r.length > 0 && end <= |frames|
    && (Clean(frames, r.home) || (r.home + unanchored <= end && forall i | r.home <= i < r.home + unanchored :: !Clean(frames, i)))
    && (Clean(frames, end) || (r.home + unanchored <= end && forall i | end - unanchored < i <= end :: !Clean(frames, i)))
  }

  lemma TrimmedIsEdged(frames: Track, c: Run, unanchored: nat, first: nat, r: Run)
    requires c.home + c.length <= |frames| && unanchored > 0
    requires Trims(frames, c, unanchored, first, Kept(r))
    ensures Edged(frames, r, unanchored)
  {
    TrimmedEdges(frames, c, unanchored, first, r);
    hide Trims;
    var end := r.home + r.length;
    if Clean(frames, end) && !Clean(frames, r.home) {
      assert !(r.home <= end < r.home + unanchored);
    }
  }

  /** Where a repeat is cut out, what is left begins and ends at splice points. */
  lemma StretchEnds(kept: seq<Run>, home: Track, other: Track, shortest: nat, minimum: nat, c: Run, cuts: seq<Repeats.Piece>, k: nat, r: Run)
    requires c.home + c.length <= |home| && minimum >= 1 && k <= |cuts|
    requires Repeats.CutsOf(kept, home, other, shortest, c, cuts) && Repeats.Survives(c, cuts, minimum, k, r)
    ensures r.length > 0 && c.home <= r.home && r.home + r.length <= c.home + c.length
    ensures Clean(home, r.home) || r.home == c.home
    ensures Clean(home, r.home + r.length) || r.home + r.length == c.home + c.length
  {
    Repeats.CutsAreInside(kept, home, other, shortest, c, cuts);
    Repeats.StretchBounds(c, cuts, k);
    if k > 0 {
      assert cuts[k - 1] in cuts;
      assert Repeats.Repeated(kept, home, other, shortest, c, cuts[k - 1]);
    }
    if k < |cuts| {
      assert cuts[k] in cuts;
      assert Repeats.Repeated(kept, home, other, shortest, c, cuts[k]);
    }
  }

  lemma PartIsEdged(frames: Track, c: Run, r: Run, unanchored: nat)
    requires Edged(frames, c, unanchored)
    requires r.length > 0 && c.home <= r.home && r.home + r.length <= c.home + c.length
    requires Clean(frames, r.home) || r.home == c.home
    requires Clean(frames, r.home + r.length) || r.home + r.length == c.home + c.length
    ensures Edged(frames, r, unanchored)
  {
    hide Clean;
    var end := r.home + r.length;
    if !Clean(frames, r.home) && Clean(frames, end) {
      assert !(r.home <= end < r.home + unanchored);
    }
    if Clean(frames, r.home) && !Clean(frames, end) {
      assert !(end - unanchored < r.home <= end);
    }
  }

  /** Cutting repeats out of a run leaves stretches with such edges. */
  lemma StretchIsEdged(kept: seq<Run>, home: Track, other: Track, shortest: nat, minimum: nat, c: Run, cuts: seq<Repeats.Piece>,
                       k: nat, r: Run, unanchored: nat)
    requires Edged(home, c, unanchored) && minimum >= 1 && k <= |cuts|
    requires Repeats.CutsOf(kept, home, other, shortest, c, cuts) && Repeats.Survives(c, cuts, minimum, k, r)
    ensures Edged(home, r, unanchored)
  {
    StretchEnds(kept, home, other, shortest, minimum, c, cuts, k, r);
    hide Repeats.CutsOf, Repeats.Survives, Clean;
    PartIsEdged(home, c, r, unanchored);
  }

  lemma LeftIsEdged(kept: seq<Run>, home: Track, other: Track, shortest: nat, minimum: nat, r: Run, unanchored: nat)
    requires minimum >= 1 && forall c | c in kept :: Edged(home, c, unanchored)
    requires Repeats.LeftIn(kept, |kept|, home, other, shortest, minimum, r)
    ensures Edged(home, r, unanchored)
  {
    hide Edged, Repeats.CutsOf;
    var i :| 0 <= i < |kept| && Repeats.Left(kept, home, other, shortest, minimum, kept[i], r);
    var c := kept[i];
    var cuts :| Repeats.CutsOf(kept, home, other, shortest, c, cuts)
      && if cuts == [] then r == c else Repeats.SurvivesBefore(c, cuts, minimum, |cuts| + 1, r);
    if cuts != [] {
      var j :| 0 <= j < |cuts| + 1 && Repeats.Survives(c, cuts, minimum, j, r);
      StretchIsEdged(kept, home, other, shortest, minimum, c, cuts, j, r, unanchored);
    }
  }

  /** A candidate no longer than a marker, at such an edge, has a splice point
      at both ends. */
  lemma CandidateIsClean(frames: Track, kept: seq<Run>, longest: nat, i: nat, p: Repeats.Piece, unanchored: nat)
    requires Markers.InFile(frames, kept) && i < |kept| && Edged(frames, kept[i], unanchored) && longest < unanchored
    requires Markers.Candidate(frames, kept, longest, i, p)
    ensures p.end <= |frames| && p.start <= |frames| && Clean(frames, p.start) && Clean(frames, p.end)
  {
    var r := kept[i];
    var end := r.home + r.length;
    var first :| Markers.FirstInside(frames, r, first) &&
      if first == end then p == Repeats.Piece(r.home, end) && (Markers.OpenStart(kept, i) || Markers.OpenEnd(kept, i))
      else || (Markers.OpenStart(kept, i) && p == Repeats.Piece(r.home, first))
           || (Markers.OpenEnd(kept, i) && p.end == end && Markers.LastInside(frames, r, first, p.start));
    assert Markers.FirstInside(frames, r, first);
  }

  /** Frames are far shorter than a marker may be. */
  lemma FramesAreShort(h: Mp3.Header)
    requires Mp3.Plausible(h)
    ensures h.sampleRate > 0 && 0 < Mp3.Duration(h) <= 144_000_000
  {
  }

  lemma MarkersAreShorter(frameDuration: nat)
    requires 0 < frameDuration <= FrameDiff.MAX_MARKER
    ensures FrameDiff.InFrames(FrameDiff.MAX_MARKER, frameDuration) < FrameDiff.InFrames(FrameDiff.UNANCHORED_MINIMUM, frameDuration)
  {
    var q, n := FrameDiff.MAX_MARKER / frameDuration, FrameDiff.UNANCHORED_MINIMUM / frameDuration;
    assert q * frameDuration <= FrameDiff.MAX_MARKER;
    assert n * frameDuration > FrameDiff.UNANCHORED_MINIMUM - frameDuration;
    Larger(n, q, frameDuration);
  }

  lemma Larger(a: int, b: int, k: nat)
    requires a * k > b * k
    ensures a > b
  {
  }

  lemma ShownIsEdged(home: Track, other: Track, options: FrameDiff.Options, frameDuration: nat, t: FrameDiff.Trace)
    requires 0 < frameDuration <= FrameDiff.MAX_MARKER && FrameDiff.ShownBy(home, other, options, frameDuration, t)
    ensures forall r | r in t.show :: Edged(home, r, FrameDiff.InFrames(FrameDiff.UNANCHORED_MINIMUM, frameDuration))
  {
    var unanchored := FrameDiff.InFrames(FrameDiff.UNANCHORED_MINIMUM, frameDuration);
    MarkersAreShorter(frameDuration);
    forall r | r in t.show
      ensures Edged(home, r, unanchored)
    {
      var i, first :| 0 <= i < |t.shared| && Trims(home, t.shared[i], unanchored, first, Kept(r));
      TrimmedIsEdged(home, t.shared[i], unanchored, first, r);
    }
  }

  lemma UnrepeatedIsEdged(home: Track, other: Track, options: FrameDiff.Options, frameDuration: nat, t: FrameDiff.Trace, runs: seq<Run>)
    requires 0 < frameDuration <= FrameDiff.MAX_MARKER && FrameDiff.ShownBy(home, other, options, frameDuration, t)
    requires FrameDiff.RemovedBy(home, other, options, frameDuration, t, runs)
    ensures forall r | r in t.unrepeated :: Edged(home, r, FrameDiff.InFrames(FrameDiff.UNANCHORED_MINIMUM, frameDuration))
  {
    hide FrameDiff.ShownBy, Edged, Repeats.LeftIn, FrameDiff.InFrames, Markers.TrimsTo;
    ShownIsEdged(home, other, options, frameDuration, t);
    var unanchored := FrameDiff.InFrames(FrameDiff.UNANCHORED_MINIMUM, frameDuration);
    if options.removeRepeatedAds {
      forall r | r in t.unrepeated
        ensures Edged(home, r, unanchored)
      {
        LeftIsEdged(t.show, home, other, FrameDiff.InFrames(FrameDiff.MIN_REPEATED_AD, frameDuration),
                    FrameDiff.Minimum(options, frameDuration), r, unanchored);
      }
    }
  }

  /** Among the runs the diff looks for markers in, every marker found by
      scanning starts and ends at a splice point. */
  lemma ScannedMarkersAreClean(home: Track, other: Track, options: FrameDiff.Options, frameDuration: nat, t: FrameDiff.Trace, runs: seq<Run>,
                               g: Repeats.Piece)
    requires 0 < frameDuration <= FrameDiff.MAX_MARKER && FrameDiff.ShownBy(home, other, options, frameDuration, t)
    requires FrameDiff.RemovedBy(home, other, options, frameDuration, t, runs)
    requires Markers.Confirmed(home, t.unrepeated, FrameDiff.InFrames(FrameDiff.MAX_MARKER, frameDuration), g)
    ensures g.start < g.end <= |home| && Clean(home, g.start) && Clean(home, g.end)
  {
    assert Markers.InFile(home, t.unrepeated);
    hide FrameDiff.ShownBy, FrameDiff.RemovedBy, Edged, Markers.Candidate, FrameDiff.InFrames;
    var longest := FrameDiff.InFrames(FrameDiff.MAX_MARKER, frameDuration);
    var unanchored := FrameDiff.InFrames(FrameDiff.UNANCHORED_MINIMUM, frameDuration);
    UnrepeatedIsEdged(home, other, options, frameDuration, t, runs);
    MarkersAreShorter(frameDuration);
    Markers.CandidatesFit(home, t.unrepeated, longest);
    var i :| 0 <= i < |t.unrepeated| && Markers.Candidate(home, t.unrepeated, longest, i, g);
    assert Markers.AnyCandidate(home, t.unrepeated, longest, |t.unrepeated|, g);
    CandidateIsClean(home, t.unrepeated, longest, i, g, unanchored);
  }

  /** The frame duration the diff goes by is one of these. */
  lemma DurationIsShort(file: Mp3.File)
    requires Cut.WellFormed(file) && file.frames != []
    ensures 0 < FrameDiff.Durations(file)[0] <= FrameDiff.MAX_MARKER
  {
    FramesAreShort(file.frames[0].header);
  }
}
