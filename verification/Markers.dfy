/** Trimming break markers from the edges of the kept runs. The markers to
    remove are kept in a map whose iteration order is arbitrary: every loop
    over it here takes its elements in any order at all. */
module Markers {
  import opened Common
  import opened Runs
  import opened Alignment
  import opened Boundaries
  import opened Repeats

  function End(r: Run): nat { r.home + r.length }

  /** Nothing kept comes right before the run. */
  predicate OpenStart(kept: seq<Run>, i: nat)
    requires i < |kept|
  {
    i == 0 || End(kept[i - 1]) < kept[i].home
  }

  predicate OpenEnd(kept: seq<Run>, i: nat)
    requires i < |kept|
  {
    i == |kept| - 1 || kept[i + 1].home > End(kept[i])
  }

  ghost predicate InFile(frames: Track, kept: seq<Run>) {
    forall i | 0 <= i < |kept| :: kept[i].length > 0 && End(kept[i]) <= |frames|
  }

  /** first is the first splice point after the run's start, or its end. */
  ghost predicate FirstInside(frames: Track, r: Run, first: nat)
    requires r.length > 0 && End(r) <= |frames|
  {
    FirstClean(frames, r.home + 1, End(r), first)
  }

  /** last is the last splice point before the run's end, no earlier than first. */
  ghost predicate LastInside(frames: Track, r: Run, first: nat, last: nat)
    requires r.length > 0 && End(r) <= |frames|
  {
    first <= last < End(r) && Clean(frames, last) && forall k | last < k < End(r) :: !Clean(frames, k)
  }

  /** p may be a marker: at most longest frames at an open edge of run i, up to
      the nearest splice point, or the whole of a run with none inside. */
  ghost predicate Candidate(frames: Track, kept: seq<Run>, longest: nat, i: nat, p: Piece)
    requires InFile(frames, kept) && i < |kept|
  {
    var r := kept[i];
    && p.end - p.start <= longest
    && exists first | FirstInside(frames, r, first) ::
         if first == End(r) then p == Piece(r.home, End(r)) && (OpenStart(kept, i) || OpenEnd(kept, i))
         else || (OpenStart(kept, i) && p == Piece(r.home, first))
              || (OpenEnd(kept, i) && p.end == End(r) && LastInside(frames, r, first, p.start))
  }

  lemma FirstUnique(frames: Track, r: Run, a: nat, b: nat)
    requires r.length > 0 && End(r) <= |frames|
    requires FirstInside(frames, r, a) && FirstInside(frames, r, b)
    ensures a == b
  {
  }

  /** The candidates of one run. */
  method Scan(frames: Track, kept: seq<Run>, longest: nat, i: nat) returns (found: seq<Piece>)
    requires InFile(frames, kept) && i < |kept|
    ensures forall p :: p in found <==> Candidate(frames, kept, longest, i, p)
  {
    var start, end := kept[i].home, End(kept[i]);
    var first := start + 1;
    while first < end && !Clean(frames, first)
      invariant start < first <= end
      invariant forall k | start < k < first :: !Clean(frames, k)
    {
      first := first + 1;
    }
    assert FirstInside(frames, kept[i], first);
    forall other: nat | FirstInside(frames, kept[i], other)
      ensures other == first
    {
      FirstUnique(frames, kept[i], first, other);
    }
    found := [];
    if first == end {
      if (OpenStart(kept, i) || OpenEnd(kept, i)) && end - start <= longest {
        found := [Piece(start, end)];
      }
      return;
    }
    if OpenStart(kept, i) && first - start <= longest {
      found := found + [Piece(start, first)];
    }
    var last := end - 1;
    while last > first && !Clean(frames, last)
      invariant first <= last < end
      invariant forall k | last < k < end :: !Clean(frames, k)
    {
      last := last - 1;
    }
    assert LastInside(frames, kept[i], first, last);
    if OpenEnd(kept, i) && end - last <= longest {
      found := found + [Piece(last, end)];
    }
  }

  ghost predicate AnyCandidate(frames: Track, kept: seq<Run>, longest: nat, upTo: nat, p: Piece)
    requires InFile(frames, kept) && upTo <= |kept|
  {
    exists i | 0 <= i < upTo :: Candidate(frames, kept, longest, i, p)
  }

  method ScanAll(frames: Track, kept: seq<Run>, longest: nat) returns (pieces: seq<Piece>)
    requires InFile(frames, kept)
    ensures forall p :: p in pieces <==> AnyCandidate(frames, kept, longest, |kept|, p)
  {
    pieces := [];
    for i := 0 to |kept|
      invariant forall p :: p in pieces <==> AnyCandidate(frames, kept, longest, i, p)
    {
      var found := Scan(frames, kept, longest, i);
      pieces := pieces + found;
    }
  }

  predicate Fits(frames: Track, p: Piece) {
    p.start < p.end <= |frames|
  }

  /** Two pieces at different positions with the same bytes. */
  predicate Twins(frames: Track, a: Piece, b: Piece)
  {
    Fits(frames, a) && Fits(frames, b) && a != b && Content(frames, a) == Content(frames, b)
  }

  lemma CandidatesFit(frames: Track, kept: seq<Run>, longest: nat)
    requires InFile(frames, kept)
    ensures forall p | AnyCandidate(frames, kept, longest, |kept|, p) :: Fits(frames, p)
  {
    forall p | AnyCandidate(frames, kept, longest, |kept|, p)
      ensures Fits(frames, p)
    {
      var i :| 0 <= i < |kept| && Candidate(frames, kept, longest, i, p);
      assert Candidate(frames, kept, longest, i, p);
    }
  }

  method ConfirmOne(frames: Track, pieces: seq<Piece>, i: nat, remove: set<Piece>) returns (more: set<Piece>)
    requires i < |pieces|
    ensures remove <= more
    ensures forall a | a in more && a !in remove :: a in pieces && exists b | b in pieces :: Twins(frames, a, b)
    ensures forall l | i < l < |pieces| && Twins(frames, pieces[i], pieces[l]) :: pieces[i] in more && pieces[l] in more
  {
    hide Twins;
    more := remove;
    for j := i + 1 to |pieces|
      invariant remove <= more
      invariant forall a | a in more && a !in remove :: a in pieces && exists b | b in pieces :: Twins(frames, a, b)
      invariant forall l | i < l < j && Twins(frames, pieces[i], pieces[l]) :: pieces[i] in more && pieces[l] in more
    {
      if Twins(frames, pieces[i], pieces[j]) {
        TwinsBothWays(frames, pieces[i], pieces[j]);
        more := more + {pieces[i], pieces[j]};
      }
    }
  }

  lemma TwinsBothWays(frames: Track, a: Piece, b: Piece)
    ensures Twins(frames, a, b) <==> Twins(frames, b, a)
  {
  }

  /** The pieces with a twin among the pieces. */
  method Confirm(frames: Track, pieces: seq<Piece>) returns (remove: set<Piece>)
    requires forall p | p in pieces :: Fits(frames, p)
    ensures forall a :: a in remove <==> a in pieces && exists b | b in pieces :: Twins(frames, a, b)
  {
    remove := {};
    for i := 0 to |pieces|
      invariant forall a | a in remove :: a in pieces && exists b | b in pieces :: Twins(frames, a, b)
      invariant forall k, l | 0 <= k < i && k < l < |pieces| && Twins(frames, pieces[k], pieces[l]) :: pieces[k] in remove && pieces[l] in remove
    {
      remove := ConfirmOne(frames, pieces, i, remove);
    }
    forall a | a in pieces && exists b | b in pieces :: Twins(frames, a, b)
      ensures a in remove
    {
      var b :| b in pieces && Twins(frames, a, b);
      var k :| 0 <= k < |pieces| && pieces[k] == a;
      var l :| 0 <= l < |pieces| && pieces[l] == b;
      if k < l { assert Twins(frames, pieces[k], pieces[l]); } else { assert Twins(frames, pieces[l], pieces[k]); }
    }
  }

  /** g has a confirmed marker's length and bytes, at an open edge of run i. */
  ghost predicate Glued(frames: Track, kept: seq<Run>, i: nat, marker: Piece, g: Piece)
    requires InFile(frames, kept) && i < |kept|
  {
    && Fits(frames, marker) && Fits(frames, g)
    && kept[i].home <= g.start && g.end <= End(kept[i]) && g.end - g.start == marker.end - marker.start
    && ((OpenStart(kept, i) && g.start == kept[i].home) || (OpenEnd(kept, i) && g.end == End(kept[i])))
    && Content(frames, g) == Content(frames, marker)
  }

  /** One confirmed marker against both edges of one run. */
  method GlueOne(frames: Track, kept: seq<Run>, i: nat, marker: Piece, remove: set<Piece>) returns (more: set<Piece>)
    requires InFile(frames, kept) && i < |kept| && Fits(frames, marker)
    ensures forall g :: g in more <==> g in remove || Glued(frames, kept, i, marker, g)
  {
    more := remove;
    var start, end := kept[i].home, End(kept[i]);
    var length := marker.end - marker.start;
    if OpenStart(kept, i) && start + length <= end {
      var glued := Piece(start, start + length);
      if glued !in more && Content(frames, glued) == Content(frames, marker) {
        more := more + {glued};
      }
    }
    if OpenEnd(kept, i) && end - length >= start {
      var glued := Piece(end - length, end);
      if glued !in more && Content(frames, glued) == Content(frames, marker) {
        more := more + {glued};
      }
    }
    forall g | Glued(frames, kept, i, marker, g)
      ensures g in more
    {
      assert g == Piece(start, start + length) || g == Piece(end - length, end);
    }
  }

  ghost predicate GluedTo(frames: Track, kept: seq<Run>, i: nat, markers: set<Piece>, g: Piece)
    requires InFile(frames, kept) && i < |kept|
  {
    exists m | m in markers :: Glued(frames, kept, i, m, g)
  }

  /** The glued markers of one run, trying the confirmed ones in any order. */
  method GlueRun(frames: Track, kept: seq<Run>, i: nat, confirmed: set<Piece>, remove: set<Piece>) returns (more: set<Piece>)
    requires InFile(frames, kept) && i < |kept| && forall m | m in confirmed :: Fits(frames, m)
    ensures forall g :: g in more <==> g in remove || GluedTo(frames, kept, i, confirmed, g)
  {
    more := remove;
    var todo := confirmed;
    while todo != {}
      invariant todo <= confirmed
      invariant forall g :: g in more <==> g in remove || GluedTo(frames, kept, i, confirmed - todo, g)
      decreases |todo|
    {
      var marker :| marker in todo;
      more := GlueOne(frames, kept, i, marker, more);
      assert confirmed - (todo - {marker}) == confirmed - todo + {marker};
      todo := todo - {marker};
    }
    assert confirmed - todo == confirmed;
  }

  ghost predicate GluedIn(frames: Track, kept: seq<Run>, upTo: nat, confirmed: set<Piece>, g: Piece)
    requires InFile(frames, kept) && upTo <= |kept|
  {
    exists i | 0 <= i < upTo :: GluedTo(frames, kept, i, confirmed, g)
  }

  /** What is removed, in the definition's own terms: candidates with a twin
      among the candidates, and edges with the bytes of one of those. */
  ghost predicate Confirmed(frames: Track, kept: seq<Run>, longest: nat, a: Piece)
    requires InFile(frames, kept)
  {
    AnyCandidate(frames, kept, longest, |kept|, a)
    && exists b | AnyCandidate(frames, kept, longest, |kept|, b) :: Twins(frames, a, b)
  }

  ghost predicate Marker(frames: Track, kept: seq<Run>, longest: nat, g: Piece)
    requires InFile(frames, kept)
  {
    || Confirmed(frames, kept, longest, g)
    || exists i, m | 0 <= i < |kept| :: Confirmed(frames, kept, longest, m) && Glued(frames, kept, i, m, g)
  }

  method GlueAll(frames: Track, kept: seq<Run>, confirmed: set<Piece>) returns (remove: set<Piece>)
    requires InFile(frames, kept) && forall m | m in confirmed :: Fits(frames, m)
    ensures forall g :: g in remove <==> g in confirmed || GluedIn(frames, kept, |kept|, confirmed, g)
  {
    remove := confirmed;
    for i := 0 to |kept|
      invariant forall g :: g in remove <==> g in confirmed || GluedIn(frames, kept, i, confirmed, g)
    {
      remove := GlueRun(frames, kept, i, confirmed, remove);
    }
  }

  lemma GluedMeansMarker(frames: Track, kept: seq<Run>, longest: nat, confirmed: set<Piece>, g: Piece)
    requires InFile(frames, kept) && forall a :: a in confirmed <==> Confirmed(frames, kept, longest, a)
    ensures g in confirmed || GluedIn(frames, kept, |kept|, confirmed, g) <==> Marker(frames, kept, longest, g)
  {
    if GluedIn(frames, kept, |kept|, confirmed, g) {
      var i :| 0 <= i < |kept| && GluedTo(frames, kept, i, confirmed, g);
      var m :| m in confirmed && Glued(frames, kept, i, m, g);
      assert Confirmed(frames, kept, longest, m);
    }
    if Marker(frames, kept, longest, g) && g !in confirmed {
      var i, m :| 0 <= i < |kept| && Confirmed(frames, kept, longest, m) && Glued(frames, kept, i, m, g);
      assert m in confirmed && GluedTo(frames, kept, i, confirmed, g);
    }
  }

  method FindMarkers(frames: Track, kept: seq<Run>, longest: nat) returns (remove: set<Piece>)
    requires InFile(frames, kept)
    ensures forall g :: g in remove <==> Marker(frames, kept, longest, g)
  {
    var pieces := ScanAll(frames, kept, longest);
    CandidatesFit(frames, kept, longest);
    var confirmed := Confirm(frames, pieces);
    assert forall a :: a in confirmed <==> Confirmed(frames, kept, longest, a);
    remove := GlueAll(frames, kept, confirmed);
    forall g
      ensures g in remove <==> Marker(frames, kept, longest, g)
    {
      GluedMeansMarker(frames, kept, longest, confirmed, g);
    }
  }

  /** Every marker has the bytes of a marker at another position. */
  lemma MarkersHaveTwins(frames: Track, kept: seq<Run>, longest: nat, g: Piece) returns (twin: Piece)
    requires InFile(frames, kept) && Marker(frames, kept, longest, g)
    ensures Marker(frames, kept, longest, twin) && Twins(frames, g, twin)
  {
    CandidatesFit(frames, kept, longest);
    if Confirmed(frames, kept, longest, g) {
      twin :| AnyCandidate(frames, kept, longest, |kept|, twin) && Twins(frames, g, twin);
      assert Twins(frames, twin, g);
    } else {
      var i, m :| 0 <= i < |kept| && Confirmed(frames, kept, longest, m) && Glued(frames, kept, i, m, g);
      twin := m;
    }
  }

  // ---- cutting the edges ----

  /** The pieces follow on from one another, from from to to. */
  predicate Consecutive(ps: seq<Piece>, from: nat, to: nat) {
    if ps == [] then from == to
    else ps[0].start == from && from < ps[0].end && Consecutive(ps[1..], ps[0].end, to)
  }

  lemma {:induction false} ConsecutiveJoin(a: seq<Piece>, b: seq<Piece>, from: nat, mid: nat, to: nat)
    requires Consecutive(a, from, mid) && Consecutive(b, mid, to)
    ensures Consecutive(a + b, from, to)
  {
    if a == [] {
      assert a + b == b;
    } else {
      ConsecutiveJoin(a[1..], b, a[0].end, mid, to);
      assert (a + b)[1..] == a[1..] + b;
    }
  }

  /** Consecutive pieces hold every frame between their ends exactly once. */
  lemma {:induction false} ConsecutiveTile(ps: seq<Piece>, from: nat, to: nat, i: nat)
    requires Consecutive(ps, from, to)
    ensures from <= to
    ensures from <= i < to ==> exists k | 0 <= k < |ps| :: ps[k].start <= i < ps[k].end
    ensures forall k | 0 <= k < |ps| :: from <= ps[k].start && ps[k].end <= to
    ensures InOrderPieces(ps)
  {
    if ps != [] {
      ConsecutiveTile(ps[1..], ps[0].end, to, i);
      assert forall k | 1 <= k < |ps| :: ps[k] == ps[1..][k - 1];
      if from <= i < to && i >= ps[0].end {
        var k :| 0 <= k < |ps[1..]| && ps[1..][k].start <= i < ps[1..][k].end;
        assert ps[k + 1].start <= i < ps[k + 1].end;
      }
    }
  }

  /** One run after trimming: markers off its front, what survives, markers
      off its back. */
  datatype Tiling = Tiling(front: seq<Piece>, start: nat, end: nat, back: seq<Piece>)

  ghost predicate Tiles(t: Tiling, c: Run) {
    Consecutive(t.front, c.home, t.start) && t.start <= t.end && Consecutive(t.back, t.end, End(c))
  }

  lemma TilesInside(t: Tiling, c: Run)
    requires Tiles(t, c)
    ensures c.home <= t.start <= t.end <= End(c)
  {
    ConsecutiveTile(t.front, c.home, t.start, 0);
    ConsecutiveTile(t.back, t.end, End(c), 0);
  }

  /** The piece is the run's beginning. */
  predicate Begins(c: Run, p: Piece) { p.start == c.home && p.end <= End(c) }

  /** The piece is the end, and not the whole, of what is left of the run from start on. */
  predicate Finishes(c: Run, start: nat, p: Piece) { p.end == End(c) && p.start >= start && p.start > c.home }

  /** Trimming one run, taking the markers in any order. An edge nothing is cut
      from has no marker at it. */
  method TrimRun(c: Run, remove: set<Piece>) returns (t: Tiling)
    requires forall p | p in remove :: p.start < p.end
    ensures Tiles(t, c)
    ensures forall p | p in t.front + t.back :: p in remove
    ensures t.front == [] ==> forall p | p in remove :: !Begins(c, p)
    ensures t.back == [] ==> forall p | p in remove :: !Finishes(c, t.start, p)
  {
    var start, end := c.home, End(c);
    var front, back: seq<Piece> := [], [];
    var todo := remove;
    while todo != {}
      invariant todo <= remove && Consecutive(front, c.home, start) && start <= end
      invariant forall p | p in front :: p in remove
      invariant front == [] ==> start == c.home && forall p | p in remove && p !in todo :: !Begins(c, p)
      decreases |todo|
    {
      var marker :| marker in todo;
      if marker.start == start && marker.end <= end {
        ConsecutiveJoin(front, [marker], c.home, start, marker.end);
        front := front + [marker];
        start := marker.end;
      }
      todo := todo - {marker};
    }
    todo := remove;
    while todo != {}
      invariant todo <= remove && Consecutive(back, end, End(c)) && start <= end
      invariant forall p | p in back :: p in remove
      invariant back == [] ==> end == End(c) && forall p | p in remove && p !in todo :: !Finishes(c, start, p)
      decreases |todo|
    {
      var marker :| marker in todo;
      if marker.end == end && marker.start >= start && marker.start > c.home {
        back := [marker] + back;
        end := marker.start;
      }
      todo := todo - {marker};
    }
    t := Tiling(front, start, end, back);
  }

  /** What survives of a run, paired with the other download as before. */
  function Survivor(c: Run, t: Tiling): (r: seq<Run>) {
    if t.end > t.start >= c.home then [Run(t.start, c.other + (t.start - c.home), t.end - t.start)] else []
  }

  function Survivors(kept: seq<Run>, ts: seq<Tiling>): (r: seq<Run>)
    requires |kept| == |ts|
  {
    if kept == [] then []
    else
      var n := |kept| - 1;
      Survivors(kept[..n], ts[..n]) + Survivor(kept[n], ts[n])
  }

  /** The pieces cut, as the module reports them. */
  function CutOff(ts: seq<Tiling>): (r: seq<Run>) {
    if ts == [] then []
    else CutOff(ts[..|ts| - 1]) + AsRun(ts[|ts| - 1].front + ts[|ts| - 1].back)
  }

  function AsRun(ps: seq<Piece>): (r: seq<Run>)
    ensures |r| == |ps|
  {
    seq(|ps|, i requires 0 <= i < |ps| => Run(ps[i].start, 0, if ps[i].end >= ps[i].start then ps[i].end - ps[i].start else 0))
  }

  /** The run is tiled, every piece cut from it is a marker, and an edge
      nothing is cut from has no marker at it. */
  ghost predicate TiledByMarkers(frames: Track, kept: seq<Run>, longest: nat, c: Run, t: Tiling)
    requires InFile(frames, kept)
  {
    && Tiles(t, c) && (forall p | p in t.front + t.back :: Marker(frames, kept, longest, p))
    && (t.front == [] ==> forall p | Marker(frames, kept, longest, p) :: !Begins(c, p))
    && (t.back == [] ==> forall p | Marker(frames, kept, longest, p) :: !Finishes(c, t.start, p))
  }

  lemma SurvivorSound(result: seq<Run>, c: Run, t: Tiling, home: Track, other: Track)
    requires Sound(result, home, other) && Tiles(t, c)
    requires c.home + c.length <= |home| && c.other + c.length <= |other| && SameBytes(home, other, c)
    requires HomeEnd(result) <= c.home && OtherEnd(result) <= c.other
    ensures Sound(result + Survivor(c, t), home, other)
    ensures HomeEnd(result + Survivor(c, t)) <= End(c) && OtherEnd(result + Survivor(c, t)) <= c.other + c.length
  {
    TilesInside(t, c);
    if t.end > t.start {
      AppendPart(result, Survivor(c, t)[0], c, home, other);
    } else {
      assert result + Survivor(c, t) == result;
    }
  }

  lemma {:induction false} SurvivorsSound(kept: seq<Run>, ts: seq<Tiling>, home: Track, other: Track)
    requires Sound(kept, home, other) && |kept| == |ts|
    requires forall i | 0 <= i < |kept| :: Tiles(ts[i], kept[i])
    ensures Sound(Survivors(kept, ts), home, other)
    ensures HomeEnd(Survivors(kept, ts)) <= HomeEnd(kept) && OtherEnd(Survivors(kept, ts)) <= OtherEnd(kept)
  {
    if kept != [] {
      var n := |kept| - 1;
      PrefixEnds(kept, |home|, |other|, n);
      SurvivorsSound(kept[..n], ts[..n], home, other);
      SurvivorSound(Survivors(kept[..n], ts[..n]), kept[n], ts[n], home, other);
    }
  }

  /** Nothing to trim: each run survives whole. */
  function Untouched(kept: seq<Run>): (ts: seq<Tiling>)
    ensures |ts| == |kept|
  {
    seq(|kept|, i requires 0 <= i < |kept| => Tiling([], kept[i].home, End(kept[i]), []))
  }

  lemma UntouchedSplit(kept: seq<Run>)
    requires kept != []
    ensures var n := |kept| - 1;
            && Untouched(kept)[..n] == Untouched(kept[..n])
            && AsRun(Untouched(kept)[n].front + Untouched(kept)[n].back) == []
            && (kept[n].length > 0 ==> Survivor(kept[n], Untouched(kept)[n]) == [kept[n]])
  {
  }

  lemma {:induction false} UntouchedSurvive(kept: seq<Run>)
    requires forall c | c in kept :: c.length > 0
    ensures Survivors(kept, Untouched(kept)) == kept
  {
    if kept != [] {
      var n := |kept| - 1;
      assert kept == kept[..n] + [kept[n]];
      UntouchedSurvive(kept[..n]);
      UntouchedSplit(kept);
      hide Untouched, Survivor;
      assert Survivors(kept, Untouched(kept)) == Survivors(kept[..n], Untouched(kept[..n])) + [kept[n]];
    }
  }

  lemma {:induction false} UntouchedCutsNothing(kept: seq<Run>)
    ensures CutOff(Untouched(kept)) == []
  {
    if kept != [] {
      var n := |kept| - 1;
      UntouchedCutsNothing(kept[..n]);
      UntouchedSplit(kept);
    }
  }

  lemma NothingToTrim(kept: seq<Run>, home: Track, longest: nat)
    requires InFile(home, kept) && forall g :: !Marker(home, kept, longest, g)
    ensures forall i | 0 <= i < |kept| :: TiledByMarkers(home, kept, longest, kept[i], Untouched(kept)[i])
    ensures Survivors(kept, Untouched(kept)) == kept && CutOff(Untouched(kept)) == []
  {
    UntouchedSurvive(kept);
    UntouchedCutsNothing(kept);
  }

  /** The first n runs are tiled by what survives of them and markers. */
  ghost predicate TrimmedTo(frames: Track, kept: seq<Run>, longest: nat, n: nat, ts: seq<Tiling>, result: seq<Run>, markers: seq<Run>)
    requires InFile(frames, kept) && n <= |kept|
  {
    && |ts| == n && (forall k | 0 <= k < n :: TiledByMarkers(frames, kept, longest, kept[k], ts[k]))
    && result == Survivors(kept[..n], ts) && markers == CutOff(ts)
  }

  lemma NothingTrimmed(frames: Track, kept: seq<Run>, longest: nat)
    requires InFile(frames, kept)
    ensures TrimmedTo(frames, kept, longest, 0, [], [], [])
  {
  }

  lemma OneMoreTrimmed(frames: Track, kept: seq<Run>, longest: nat, n: nat, ts: seq<Tiling>, result: seq<Run>, markers: seq<Run>, t: Tiling)
    requires InFile(frames, kept) && n < |kept| && TrimmedTo(frames, kept, longest, n, ts, result, markers)
    requires TiledByMarkers(frames, kept, longest, kept[n], t)
    ensures TrimmedTo(frames, kept, longest, n + 1, ts + [t], result + Survivor(kept[n], t), markers + AsRun(t.front + t.back))
  {
    hide Survivors, CutOff, Survivor, AsRun, InFile;
    TilesOf(frames, kept, longest, kept[n], t);
    StepSurvivors(kept, ts, n, t);
    hide TiledByMarkers;
  }

  lemma TilesOf(frames: Track, kept: seq<Run>, longest: nat, c: Run, t: Tiling)
    requires InFile(frames, kept) && TiledByMarkers(frames, kept, longest, c, t)
    ensures Tiles(t, c)
  {
  }

  /** Trimming every run, one after another. */
  method TrimRuns(frames: Track, kept: seq<Run>, longest: nat, remove: set<Piece>)
    returns (result: seq<Run>, markers: seq<Run>, ghost ts: seq<Tiling>)
    requires InFile(frames, kept) && forall g :: g in remove <==> Marker(frames, kept, longest, g)
    ensures TrimmedTo(frames, kept, longest, |kept|, ts, result, markers)
  {
    result, markers, ts := [], [], [];
    MarkersAreNotEmpty(frames, kept, longest, remove);
    NothingTrimmed(frames, kept, longest);
    hide *;
    for i := 0 to |kept|
      invariant TrimmedTo(frames, kept, longest, i, ts, result, markers)
    {
      var t := TrimRun(kept[i], remove);
      CutByMarkers(frames, kept, longest, kept[i], t, remove);
      OneMoreTrimmed(frames, kept, longest, i, ts, result, markers, t);
      ts := ts + [t];
      markers := markers + AsRun(t.front + t.back);
      var left := Survive(kept[i], t);
      result := result + left;
    }
  }

  lemma CutByMarkers(frames: Track, kept: seq<Run>, longest: nat, c: Run, t: Tiling, remove: set<Piece>)
    requires InFile(frames, kept) && forall g :: g in remove <==> Marker(frames, kept, longest, g)
    requires Tiles(t, c) && forall p | p in t.front + t.back :: p in remove
    requires t.front == [] ==> forall p | p in remove :: !Begins(c, p)
    requires t.back == [] ==> forall p | p in remove :: !Finishes(c, t.start, p)
    ensures TiledByMarkers(frames, kept, longest, c, t)
  {
  }

  lemma MarkersAreNotEmpty(frames: Track, kept: seq<Run>, longest: nat, remove: set<Piece>)
    requires InFile(frames, kept) && forall g :: g in remove <==> Marker(frames, kept, longest, g)
    ensures forall p | p in remove :: p.start < p.end
  {
    forall p | p in remove
      ensures p.start < p.end
    {
      var twin := MarkersHaveTwins(frames, kept, longest, p);
    }
  }

  method Survive(c: Run, t: Tiling) returns (left: seq<Run>)
    requires Tiles(t, c)
    ensures left == Survivor(c, t)
  {
    TilesInside(t, c);
    left := [];
    if t.end > t.start {
      var shift := t.start - c.home;
      left := [Run(t.start, c.other + shift, t.end - t.start)];
    }
  }

  lemma StepSurvivors(kept: seq<Run>, ts: seq<Tiling>, i: nat, t: Tiling)
    requires i < |kept| && |ts| == i
    ensures Survivors(kept[..i + 1], ts + [t]) == Survivors(kept[..i], ts) + Survivor(kept[i], t)
    ensures CutOff(ts + [t]) == CutOff(ts) + AsRun(t.front + t.back)
  {
    assert kept[..i + 1][..i] == kept[..i] && (ts + [t])[..i] == ts;
  }

  /** Some way of tiling every run by what survives of it and markers off its
      edges leaves these runs, and these markers by position. */
  ghost predicate TrimsTo(home: Track, kept: seq<Run>, longest: nat, runs: seq<Run>, markers: seq<Run>)
    requires InFile(home, kept)
  {
    exists ts: seq<Tiling> | |ts| == |kept| ::
      && (forall i | 0 <= i < |kept| :: TiledByMarkers(home, kept, longest, kept[i], ts[i]))
      && runs == Survivors(kept, ts) && multiset(markers) == multiset(CutOff(ts)) && SortedBy(markers, HomeOf)
  }

  /** Whatever order the markers come in: every run is tiled by what survives
      of it and the markers cut from its edges, each of them a marker by the
      definition, and what survives pairs the same frames as before. */
  method TrimMarkers(kept: seq<Run>, home: Track, ghost other: Track, longest: nat)
    returns (result: seq<Run>, markers: seq<Run>, ghost ts: seq<Tiling>)
    requires Sound(kept, home, other)
    ensures |ts| == |kept| && forall i | 0 <= i < |kept| :: TiledByMarkers(home, kept, longest, kept[i], ts[i])
    ensures result == Survivors(kept, ts) && Sound(result, home, other)
    ensures multiset(markers) == multiset(CutOff(ts)) && SortedBy(markers, HomeOf)
    ensures TrimsTo(home, kept, longest, result, markers)
  {
    var remove := FindMarkers(home, kept, longest);
    if remove == {} {
      NothingToTrim(kept, home, longest);
      return kept, [], Untouched(kept);
    }
    var cut;
    result, cut, ts := TrimRuns(home, kept, longest, remove);
    assert kept[..|kept|] == kept;
    markers := Sort(cut, HomeOf);
    SurvivorsSound(kept, ts, home, other);
  }
}
