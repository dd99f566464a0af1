/** What trimming markers does to frames: each stays where it was paired or is
    in a marker reported, and a chime at the edges of two runs is cut off both. */
module MarkerCuts {
  import opened Common
  import opened Runs
  import opened Alignment
  import opened Boundaries
  import opened Repeats
  import opened Markers

  predicate Has(r: Run, i: nat) { r.home <= i < r.home + r.length }

  /** The frame is in one of the runs, with the partner it had in c. */
  ghost predicate Stays(runs: seq<Run>, c: Run, i: nat) {
    exists r | r in runs :: Has(r, i) && r.other - r.home == c.other - c.home
  }

  ghost predicate Gone(markers: seq<Run>, i: nat) {
    exists m | m in markers :: Has(m, i)
  }

  lemma {:induction false} SurvivorIn(kept: seq<Run>, ts: seq<Tiling>, q: nat)
    requires |kept| == |ts| && q < |kept|
    ensures forall r | r in Survivor(kept[q], ts[q]) :: r in Survivors(kept, ts)
    ensures forall r | r in AsRun(ts[q].front + ts[q].back) :: r in CutOff(ts)
  {
    hide Survivor, AsRun;
    var n := |kept| - 1;
    if q < n {
      SurvivorIn(kept[..n], ts[..n], q);
    }
  }

  lemma {:induction false} SurvivorFrom(kept: seq<Run>, ts: seq<Tiling>, r: Run) returns (q: nat)
    requires |kept| == |ts| && r in Survivors(kept, ts)
    ensures q < |kept| && r in Survivor(kept[q], ts[q])
  {
    hide Survivor;
    var n := |kept| - 1;
    if r in Survivor(kept[n], ts[n]) {
      q := n;
    } else {
      q := SurvivorFrom(kept[..n], ts[..n], r);
    }
  }

  lemma {:induction false} CutFrom(ts: seq<Tiling>, m: Run) returns (q: nat)
    requires m in CutOff(ts)
    ensures q < |ts| && m in AsRun(ts[q].front + ts[q].back)
  {
    hide AsRun;
    var n := |ts| - 1;
    if m in AsRun(ts[n].front + ts[n].back) {
      q := n;
    } else {
      q := CutFrom(ts[..n], m);
    }
  }

  lemma PieceReported(ps: seq<Piece>, p: Piece, i: nat)
    requires p in ps && p.start <= i < p.end
    ensures exists m | m in AsRun(ps) :: Has(m, i)
  {
    var k :| 0 <= k < |ps| && ps[k] == p;
    assert AsRun(ps)[k] in AsRun(ps) && Has(AsRun(ps)[k], i);
  }

  /** A frame of a tiled run survives, or is in a piece cut off it. */
  lemma FrameOfTiling(c: Run, t: Tiling, i: nat)
    requires Tiles(t, c) && Has(c, i)
    ensures Stays(Survivor(c, t), c, i) || Gone(AsRun(t.front + t.back), i)
  {
    TilesInside(t, c);
    if t.start <= i < t.end {
      var r := Run(t.start, c.other + (t.start - c.home), t.end - t.start);
      assert Survivor(c, t) == [r] && Has(r, i);
    } else {
      ConsecutiveTile(t.front, c.home, t.start, i);
      ConsecutiveTile(t.back, t.end, End(c), i);
      var ps := if i < t.start then t.front else t.back;
      var k :| 0 <= k < |ps| && ps[k].start <= i < ps[k].end;
      assert ps[k] in t.front + t.back;
      PieceReported(t.front + t.back, ps[k], i);
    }
  }

  /** Every frame of a run stays, paired as it was, or is in a marker reported. */
  lemma EveryFrameAccounted(frames: Track, kept: seq<Run>, longest: nat, runs: seq<Run>, markers: seq<Run>, q: nat, i: nat)
    requires InFile(frames, kept) && TrimsTo(frames, kept, longest, runs, markers) && q < |kept| && Has(kept[q], i)
    ensures Stays(runs, kept[q], i) || Gone(markers, i)
  {
    hide Survivor, AsRun, Survivors, CutOff, Marker;
    var ts: seq<Tiling> :| |ts| == |kept| && (forall k | 0 <= k < |kept| :: TiledByMarkers(frames, kept, longest, kept[k], ts[k]))
      && runs == Survivors(kept, ts) && multiset(markers) == multiset(CutOff(ts)) && SortedBy(markers, HomeOf);
    assert TiledByMarkers(frames, kept, longest, kept[q], ts[q]);
    FrameOfTiling(kept[q], ts[q], i);
    SurvivorIn(kept, ts, q);
    SameElements(markers, CutOff(ts));
  }

  /** What goes is only that: a frame in a marker reported is in no run left. */
  lemma NotBoth(frames: Track, kept: seq<Run>, longest: nat, runs: seq<Run>, markers: seq<Run>, n: nat, m: nat, i: nat)
    requires InFile(frames, kept) && TrimsTo(frames, kept, longest, runs, markers) && InOrderRuns(kept, n, m)
    requires exists r | r in runs :: Has(r, i)
    ensures !Gone(markers, i)
  {
    hide AsRun, Survivors, CutOff, Marker, InFile, SortedBy;
    var ts: seq<Tiling> :| |ts| == |kept| && (forall k | 0 <= k < |kept| :: TiledByMarkers(frames, kept, longest, kept[k], ts[k]))
      && runs == Survivors(kept, ts) && multiset(markers) == multiset(CutOff(ts)) && SortedBy(markers, HomeOf);
    SameElements(markers, CutOff(ts));
    var r :| r in runs && Has(r, i);
    var p := SurvivorFrom(kept, ts, r);
    assert TiledByMarkers(frames, kept, longest, kept[p], ts[p]);
    TilesInside(ts[p], kept[p]);
    if g :| g in markers && Has(g, i) {
      var q := CutFrom(ts, g);
      assert TiledByMarkers(frames, kept, longest, kept[q], ts[q]);
      CutIsInside(kept[q], ts[q], g, i);
      InOneRun(kept, n, m, p, q, i);
      CutIsOutside(kept[q], ts[q], g, i);
    }
  }

  lemma InOneRun(kept: seq<Run>, n: nat, m: nat, p: nat, q: nat, i: nat)
    requires InOrderRuns(kept, n, m) && p < |kept| && q < |kept| && Has(kept[p], i) && Has(kept[q], i)
    ensures p == q
  {
  }

  lemma CutIsInside(c: Run, t: Tiling, g: Run, i: nat)
    requires Tiles(t, c) && g in AsRun(t.front + t.back) && Has(g, i)
    ensures Has(c, i)
  {
    CutIsOutside(c, t, g, i);
  }

  lemma CutIsOutside(c: Run, t: Tiling, g: Run, i: nat)
    requires Tiles(t, c) && g in AsRun(t.front + t.back) && Has(g, i)
    ensures c.home <= i < End(c) && !(t.start <= i < t.end)
  {
    var ps := t.front + t.back;
    var k :| 0 <= k < |ps| && AsRun(ps)[k] == g;
    ConsecutiveTile(t.front, c.home, t.start, i);
    ConsecutiveTile(t.back, t.end, End(c), i);
    TilesInside(t, c);
    assert ps[k] == if k < |t.front| then t.front[k] else t.back[k - |t.front|];
  }

  // ---- twins ----

  /** Pieces at different positions of as many frames, byte for byte the same. */
  predicate Copies(frames: Track, a: Piece, b: Piece) {
    && a != b && a.start <= a.end <= |frames| && b.start <= b.end <= |frames| && a.end - a.start == b.end - b.start
    && forall x | a.start <= x < a.end :: frames[x].bytes == frames[x - a.start + b.start].bytes
  }

  lemma TwinsAreCopies(frames: Track, a: Piece, b: Piece)
    ensures Twins(frames, a, b) <==> a.start < a.end && Copies(frames, a, b)
  {
    if Twins(frames, a, b) {
      assert |Content(frames, a)| == |Content(frames, b)|;
      forall x | a.start <= x < a.end
        ensures frames[x].bytes == frames[x - a.start + b.start].bytes
      {
        assert Content(frames, a)[x - a.start] == Content(frames, b)[x - a.start];
      }
    }
    if a.start < a.end && Copies(frames, a, b) {
      assert Content(frames, a) == Content(frames, b);
    }
  }

  /** Every marker is byte for byte a marker at another position. */
  lemma MarkersAreCopies(frames: Track, kept: seq<Run>, longest: nat, g: Piece) returns (twin: Piece)
    requires InFile(frames, kept) && Marker(frames, kept, longest, g)
    ensures g.start < g.end && Marker(frames, kept, longest, twin) && Copies(frames, g, twin)
  {
    twin := MarkersHaveTwins(frames, kept, longest, g);
    TwinsAreCopies(frames, g, twin);
  }

  // ---- chimes ----

  predicate OpenBefore(kept: seq<Run>, i: nat)
    requires i < |kept|
  {
    i == 0 || kept[i - 1].home + kept[i - 1].length < kept[i].home
  }

  predicate OpenAfter(kept: seq<Run>, i: nat)
    requires i < |kept|
  {
    i == |kept| - 1 || kept[i].home + kept[i].length < kept[i + 1].home
  }

  /** A chime at an edge of run i nothing is kept beyond: up to the nearest
      splice point, or to the other edge if there is none, and not too long. */
  ghost predicate Chime(frames: Track, kept: seq<Run>, longest: nat, i: nat, p: Piece)
    requires i < |kept|
  {
    var start, end := kept[i].home, kept[i].home + kept[i].length;
    && start <= p.start < p.end <= end <= |frames| && p.end - p.start <= longest
    && (forall k | p.start < k < p.end :: frames[k].begin != 0)
    && (|| (OpenBefore(kept, i) && p.start == start && (p.end == end || frames[p.end].begin == 0))
        || (OpenAfter(kept, i) && p.end == end && (p.start == start || frames[p.start].begin == 0)))
  }

  /** Those are the candidates. */
  lemma ChimesAreCandidates(frames: Track, kept: seq<Run>, longest: nat, i: nat, p: Piece)
    requires InFile(frames, kept) && i < |kept|
    ensures Chime(frames, kept, longest, i, p) <==> Candidate(frames, kept, longest, i, p)
  {
    var r := kept[i];
    assert OpenBefore(kept, i) == OpenStart(kept, i) && OpenAfter(kept, i) == OpenEnd(kept, i);
    if Candidate(frames, kept, longest, i, p) {
      CandidateIsChime(frames, kept, longest, i, p);
    }
    if Chime(frames, kept, longest, i, p) {
      ChimeIsCandidate(frames, kept, longest, i, p);
    }
  }

  lemma ChimeIsCandidate(frames: Track, kept: seq<Run>, longest: nat, i: nat, p: Piece)
    requires InFile(frames, kept) && i < |kept| && Chime(frames, kept, longest, i, p)
    ensures Candidate(frames, kept, longest, i, p)
  {
    var r := kept[i];
    assert OpenBefore(kept, i) == OpenStart(kept, i) && OpenAfter(kept, i) == OpenEnd(kept, i);
    var first := FirstOf(frames, r);
    forall k | p.start < k < p.end
      ensures !Clean(frames, k)
    {
      assert frames[k].begin != 0;
    }
    assert p.end < End(r) ==> frames[p.end].begin == 0 && Clean(frames, p.end);
    assert p.start > r.home ==> frames[p.start].begin == 0 && Clean(frames, p.start);
    hide OpenBefore, OpenAfter, OpenStart, OpenEnd, Clean;
    assert first < p.end ==> !(p.start < first);
    assert FirstInside(frames, r, first);
    if first < End(r) && p.end == End(r) {
      assert LastInside(frames, r, first, p.start);
    }
  }

  lemma CandidateIsChime(frames: Track, kept: seq<Run>, longest: nat, i: nat, p: Piece)
    requires InFile(frames, kept) && i < |kept| && Candidate(frames, kept, longest, i, p)
    ensures Chime(frames, kept, longest, i, p)
  {
    var r := kept[i];
    assert OpenBefore(kept, i) == OpenStart(kept, i) && OpenAfter(kept, i) == OpenEnd(kept, i);
    hide OpenBefore, OpenAfter, OpenStart, OpenEnd;
    var first :| FirstInside(frames, r, first)
      && if first == End(r) then p == Piece(r.home, End(r)) && (OpenStart(kept, i) || OpenEnd(kept, i))
         else || (OpenStart(kept, i) && p == Piece(r.home, first))
              || (OpenEnd(kept, i) && p.end == End(r) && LastInside(frames, r, first, p.start));
    forall k | p.start < k < p.end
      ensures frames[k].begin != 0
    {
      assert !Clean(frames, k);
    }
  }

  lemma FirstOf(frames: Track, r: Run) returns (first: nat)
    requires r.length > 0 && End(r) <= |frames|
    ensures FirstInside(frames, r, first)
  {
    first := r.home + 1;
    while first < End(r) && !Clean(frames, first)
      invariant r.home < first <= End(r) && forall k | r.home < k < first :: !Clean(frames, k)
    {
      first := first + 1;
    }
  }

  /** In no run that is left. */
  ghost predicate Dropped(runs: seq<Run>, x: nat) {
    forall r | r in runs :: !Has(r, x)
  }

  /** No marker at an edge is left whole; at a run's start its first frame goes. */
  lemma EdgeMarkersGo(frames: Track, kept: seq<Run>, longest: nat, runs: seq<Run>, markers: seq<Run>, n: nat, m: nat, i: nat, g: Piece)
      returns (x: nat)
    requires InFile(frames, kept) && TrimsTo(frames, kept, longest, runs, markers) && InOrderRuns(kept, n, m) && i < |kept|
    requires Marker(frames, kept, longest, g) && kept[i].home <= g.start < g.end <= End(kept[i])
    requires g.start == kept[i].home || g.end == End(kept[i])
    ensures g.start <= x < g.end && Dropped(runs, x) && Gone(markers, x) && (g.start == kept[i].home ==> x == g.start)
  {
    hide Survivors, Survivor, CutOff, AsRun, Marker, InFile, InOrderRuns, SortedBy;
    var ts: seq<Tiling> :| |ts| == |kept| && (forall k | 0 <= k < |kept| :: TiledByMarkers(frames, kept, longest, kept[k], ts[k]))
      && runs == Survivors(kept, ts) && multiset(markers) == multiset(CutOff(ts)) && SortedBy(markers, HomeOf);
    assert TiledByMarkers(frames, kept, longest, kept[i], ts[i]);
    x := EdgeOutside(frames, kept, longest, i, ts[i], g);
    OutsideIsDropped(frames, kept, longest, ts, n, m, i, x);
    EveryFrameAccounted(frames, kept, longest, runs, markers, i, x);
  }

  lemma EdgeOutside(frames: Track, kept: seq<Run>, longest: nat, i: nat, t: Tiling, g: Piece) returns (x: nat)
    requires InFile(frames, kept) && i < |kept| && TiledByMarkers(frames, kept, longest, kept[i], t)
    requires Marker(frames, kept, longest, g) && kept[i].home <= g.start < g.end <= End(kept[i])
    requires g.start == kept[i].home || g.end == End(kept[i])
    ensures g.start <= x < g.end && !(t.start <= x < t.end) && (g.start == kept[i].home ==> x == g.start)
  {
    hide Marker, InFile;
    TilesInside(t, kept[i]);
    if g.start == kept[i].home {
      x := g.start;
      assert Begins(kept[i], g);
      ConsecutiveTile(t.front[1..], t.front[0].end, t.start, 0);
    } else if t.back != [] {
      x := g.end - 1;
      ConsecutiveTile(t.back[1..], t.back[0].end, End(kept[i]), 0);
    } else {
      x := g.start;
      assert !Finishes(kept[i], t.start, g);
    }
  }

  lemma OutsideIsDropped(frames: Track, kept: seq<Run>, longest: nat, ts: seq<Tiling>, n: nat, m: nat, i: nat, x: nat)
    requires InFile(frames, kept) && InOrderRuns(kept, n, m) && |ts| == |kept| && i < |kept|
    requires forall k | 0 <= k < |kept| :: TiledByMarkers(frames, kept, longest, kept[k], ts[k])
    requires Has(kept[i], x) && !(ts[i].start <= x < ts[i].end)
    ensures Dropped(Survivors(kept, ts), x)
  {
    hide Survivors, Marker, InFile;
    forall r | r in Survivors(kept, ts)
      ensures !Has(r, x)
    {
      var q := SurvivorFrom(kept, ts, r);
      assert TiledByMarkers(frames, kept, longest, kept[q], ts[q]);
      TilesInside(ts[q], kept[q]);
      if Has(r, x) {
        InOneRun(kept, n, m, q, i, x);
      }
    }
  }

  /** What has a confirmed chime's bytes, at an open edge of any run, is a marker too. */
  lemma LikeChimeIsMarker(frames: Track, kept: seq<Run>, longest: nat, i: nat, a: Piece, j: nat, b: Piece, e: nat, g: Piece)
    requires InFile(frames, kept) && i < |kept| && j < |kept| && e < |kept|
    requires Chime(frames, kept, longest, i, a) && Chime(frames, kept, longest, j, b) && Copies(frames, a, b)
    requires kept[e].home <= g.start && g.end <= End(kept[e]) && (g == a || Copies(frames, g, a))
    requires (OpenBefore(kept, e) && g.start == kept[e].home) || (OpenAfter(kept, e) && g.end == End(kept[e]))
    ensures Marker(frames, kept, longest, g)
  {
    ChimesAreCandidates(frames, kept, longest, i, a);
    ChimesAreCandidates(frames, kept, longest, j, b);
    TwinsAreCopies(frames, a, b);
    TwinsAreCopies(frames, g, a);
    hide Candidate, Copies, Twins;
    assert AnyCandidate(frames, kept, longest, |kept|, a) && AnyCandidate(frames, kept, longest, |kept|, b);
    assert Confirmed(frames, kept, longest, a);
    if g != a {
      LikeIsGlued(frames, kept, e, a, g);
    }
  }

  /** And nothing else is. */
  lemma MarkerIsLikeChime(frames: Track, kept: seq<Run>, longest: nat, g: Piece)
      returns (i: nat, a: Piece, j: nat, b: Piece, e: nat)
    requires InFile(frames, kept) && Marker(frames, kept, longest, g)
    ensures i < |kept| && j < |kept| && e < |kept|
    ensures Chime(frames, kept, longest, i, a) && Chime(frames, kept, longest, j, b) && Copies(frames, a, b)
    ensures kept[e].home <= g.start && g.end <= End(kept[e]) && (g == a || Copies(frames, g, a))
    ensures (OpenBefore(kept, e) && g.start == kept[e].home) || (OpenAfter(kept, e) && g.end == End(kept[e]))
  {
    hide Candidate, Twins, Copies, Chime, Glued;
    if Confirmed(frames, kept, longest, g) {
      a := g;
    } else {
      e, a :| e < |kept| && Confirmed(frames, kept, longest, a) && Glued(frames, kept, e, a, g);
    }
    i :| i < |kept| && Candidate(frames, kept, longest, i, a);
    b :| AnyCandidate(frames, kept, longest, |kept|, b) && Twins(frames, a, b);
    j :| j < |kept| && Candidate(frames, kept, longest, j, b);
    ChimesAreCandidates(frames, kept, longest, i, a);
    ChimesAreCandidates(frames, kept, longest, j, b);
    TwinsAreCopies(frames, a, b);
    if Confirmed(frames, kept, longest, g) {
      e := i;
      ChimeIsAtEdge(frames, kept, longest, i, g);
    } else {
      GluedIsLike(frames, kept, e, a, g);
    }
  }

  lemma ChimeIsAtEdge(frames: Track, kept: seq<Run>, longest: nat, i: nat, p: Piece)
    requires i < |kept| && Chime(frames, kept, longest, i, p)
    ensures kept[i].home <= p.start && p.end <= End(kept[i])
    ensures (OpenBefore(kept, i) && p.start == kept[i].home) || (OpenAfter(kept, i) && p.end == End(kept[i]))
  {
  }

  lemma GluedIsLike(frames: Track, kept: seq<Run>, e: nat, a: Piece, g: Piece)
    requires InFile(frames, kept) && e < |kept| && Glued(frames, kept, e, a, g)
    ensures kept[e].home <= g.start && g.end <= End(kept[e]) && (g == a || Copies(frames, g, a))
    ensures (OpenBefore(kept, e) && g.start == kept[e].home) || (OpenAfter(kept, e) && g.end == End(kept[e]))
  {
    TwinsAreCopies(frames, g, a);
    assert OpenBefore(kept, e) == OpenStart(kept, e) && OpenAfter(kept, e) == OpenEnd(kept, e);
  }

  lemma MarkersAreShort(frames: Track, kept: seq<Run>, longest: nat, g: Piece)
    requires InFile(frames, kept) && Marker(frames, kept, longest, g)
    ensures g.start < g.end && g.end - g.start <= longest
  {
    var i, a, j, b, e := MarkerIsLikeChime(frames, kept, longest, g);
  }

  /** What is reported is a marker. */
  lemma ReportedIsMarker(frames: Track, kept: seq<Run>, longest: nat, runs: seq<Run>, markers: seq<Run>, m: Run) returns (g: Piece)
    requires InFile(frames, kept) && TrimsTo(frames, kept, longest, runs, markers) && m in markers
    ensures Marker(frames, kept, longest, g) && m.home == g.start && m.length == g.end - g.start
  {
    hide Survivors, CutOff, Marker, SortedBy;
    var ts: seq<Tiling> :| |ts| == |kept| && (forall k | 0 <= k < |kept| :: TiledByMarkers(frames, kept, longest, kept[k], ts[k]))
      && runs == Survivors(kept, ts) && multiset(markers) == multiset(CutOff(ts)) && SortedBy(markers, HomeOf);
    SameElements(markers, CutOff(ts));
    var q := CutFrom(ts, m);
    assert TiledByMarkers(frames, kept, longest, kept[q], ts[q]);
    var ps := ts[q].front + ts[q].back;
    var k :| 0 <= k < |ps| && AsRun(ps)[k] == m;
    g := ps[k];
    MarkersAreShort(frames, kept, longest, g);
  }

  lemma LikeIsGlued(frames: Track, kept: seq<Run>, e: nat, a: Piece, g: Piece)
    requires InFile(frames, kept) && e < |kept| && a.start < a.end && Copies(frames, g, a)
    requires kept[e].home <= g.start && g.end <= End(kept[e])
    requires (OpenBefore(kept, e) && g.start == kept[e].home) || (OpenAfter(kept, e) && g.end == End(kept[e]))
    ensures Glued(frames, kept, e, a, g)
  {
    TwinsAreCopies(frames, g, a);
    assert OpenBefore(kept, e) == OpenStart(kept, e) && OpenAfter(kept, e) == OpenEnd(kept, e);
  }

  /** Two runs have the same chime at their edges, and a run, one of them or
      another, begins or ends with its bytes: what it begins or ends with does
      not stay whole, and its first frame goes if it begins with them. */
  lemma ChimesAreCut(frames: Track, kept: seq<Run>, longest: nat, runs: seq<Run>, markers: seq<Run>, n: nat, m: nat,
                     i: nat, a: Piece, j: nat, b: Piece, e: nat, g: Piece) returns (x: nat)
    requires InFile(frames, kept) && TrimsTo(frames, kept, longest, runs, markers) && InOrderRuns(kept, n, m)
    requires i < |kept| && j < |kept| && e < |kept|
    requires Chime(frames, kept, longest, i, a) && Chime(frames, kept, longest, j, b) && Copies(frames, a, b)
    requires kept[e].home <= g.start && g.end <= End(kept[e]) && (g == a || Copies(frames, g, a))
    requires (OpenBefore(kept, e) && g.start == kept[e].home) || (OpenAfter(kept, e) && g.end == End(kept[e]))
    ensures g.start <= x < g.end && Dropped(runs, x) && Gone(markers, x) && (g.start == kept[e].home ==> x == g.start)
  {
    hide *;
    LikeChimeIsMarker(frames, kept, longest, i, a, j, b, e, g);
    AsLong(frames, kept, longest, i, a, g);
    x := EdgeMarkersGo(frames, kept, longest, runs, markers, n, m, e, g);
  }

  lemma AsLong(frames: Track, kept: seq<Run>, longest: nat, i: nat, a: Piece, g: Piece)
    requires i < |kept| && Chime(frames, kept, longest, i, a) && (g == a || Copies(frames, g, a))
    ensures g.start < g.end
  {
  }
}
