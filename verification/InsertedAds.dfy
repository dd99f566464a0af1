/** The diff of two downloads of one show that differ at one place: what each
    host inserted there is found and removed, and nothing else is. */
module InsertedAds {
  import opened Common
  import opened Runs
  import opened Alignment
  import opened Boundaries
  import opened FrameDiff
  import opened Reservoir
  import Splices
  import Repeats
  import Mp3
  import Cut
  import Gaps
  import HeaderBits
  import RoundTrip

  /** Frames with equal hashes are equal frames, from a to b. */
  ghost predicate Distinguishes(hash: seq<byte> -> int, a: Track, b: Track) {
    forall i, j | 0 <= i < |a| && 0 <= j < |b| && hash(a[i].bytes) == hash(b[j].bytes) :: a[i].bytes == b[j].bytes
  }

  /** The hashes tell these two downloads' frames and groups of frames apart. */
  ghost predicate NoCollision(home: Track, other: Track, hash: seq<byte> -> int, gram: seq<int> -> int) {
    && Distinguishes(hash, home, home) && Distinguishes(hash, other, other) && Distinguishes(hash, home, other)
    && Splices.Tells(gram, Repeats.Hashes(home, hash), Repeats.Hashes(other, hash))
  }

  /** Sixteen frames from i on have the bytes of the sixteen from j on. */
  ghost predicate SameSixteen(a: Track, i: nat, b: Track, j: nat) {
    && i + 16 <= |a| && j + 16 <= |b|
    && forall k | i <= k < i + 16 :: a[k].bytes == b[k - i + j].bytes
  }

  /** Nowhere else in the download do sixteen frames have their bytes. */
  ghost predicate Lone(a: Track, i: nat) {
    i + 16 <= |a| && forall k: nat | k != i :: !SameSixteen(a, i, a, k)
  }

  lemma SameByHash(a: Track, i: nat, b: Track, j: nat, hash: seq<byte> -> int)
    requires Distinguishes(hash, a, b) && i + 16 <= |a| && j + 16 <= |b|
    ensures SameSixteen(a, i, b, j) <==> Splices.Group(Repeats.Hashes(a, hash), i) == Splices.Group(Repeats.Hashes(b, hash), j)
  {
    var g, h := Splices.Group(Repeats.Hashes(a, hash), i), Splices.Group(Repeats.Hashes(b, hash), j);
    assert forall k | i <= k < i + 16 :: g[k - i] == hash(a[k].bytes) && h[k - i] == hash(b[k - i + j].bytes);
    if SameSixteen(a, i, b, j) {
      forall n | 0 <= n < 16
        ensures g[n] == h[n]
      {
        assert a[i + n].bytes == b[i + n - i + j].bytes;
      }
    }
  }

  lemma LoneByHash(a: Track, i: nat, hash: seq<byte> -> int)
    requires Distinguishes(hash, a, a) && Lone(a, i)
    ensures Splices.OnlyAt(Repeats.Hashes(a, hash), i)
  {
    var h := Repeats.Hashes(a, hash);
    forall k: nat | k + 16 <= |h| && k != i
      ensures Splices.Group(h, k) != Splices.Group(h, i)
    {
      assert !SameSixteen(a, i, a, k);
      SameByHash(a, i, a, k, hash);
    }
  }

  // ---- shared audio is found ----

  /** Along the aligned runs the frames themselves are equal, so that the byte
      check takes nothing away. */
  lemma {:induction false} NothingToCut(runs: seq<Run>, home: Track, other: Track)
    requires forall r | r in runs :: r.length > 0 && r.home + r.length <= |home| && r.other + r.length <= |other| && SameBytes(home, other, r)
    ensures Verified(runs, home, other) == runs
  {
    if runs != [] {
      var last := runs[|runs| - 1];
      assert last in runs;
      NothingToCut(runs[..|runs| - 1], home, other);
      assert MatchLength(home, other, last, 0) == last.length;
      assert runs == runs[..|runs| - 1] + [last.(length := last.length)];
    }
  }

  lemma SharedMeans(home: Track, other: Track, hash: seq<byte> -> int, gram: seq<int> -> int, t: Trace)
    requires SharedBy(home, other, hash, gram, t)
    ensures var h, o := Repeats.Hashes(home, hash), Repeats.Hashes(other, hash);
            && AnchorChain(Grams(h, gram), Grams(o, gram), t.chain)
            && (forall better: seq<Run> | AnchorChain(Grams(h, gram), Grams(o, gram), better) :: |better| <= |t.chain|)
            && (forall p | 0 <= p < |t.aligned| :: GrownFrom(h, o, t.chain, t.aligned, p))
            && GrownInTurn(h, o, t.chain, t.aligned)
    ensures InOrderRuns(t.aligned, |home|, |other|) && t.shared == Verified(t.aligned, home, other)
  {
    hide AnchorChain, GrownFrom, Covered, GrownInTurn, Verified, Grams;
  }

  lemma SameByHashes(home: Track, other: Track, hash: seq<byte> -> int, r: Run)
    requires Distinguishes(hash, home, other) && r.home + r.length <= |home| && r.other + r.length <= |other|
    requires forall i | r.home <= i < r.home + r.length :: Repeats.Hashes(home, hash)[i] == Repeats.Hashes(other, hash)[i - r.home + r.other]
    ensures SameBytes(home, other, r)
  {
    forall i | r.home <= i < r.home + r.length
      ensures home[i].bytes == other[i - r.home + r.other].bytes
    {
      assert Repeats.Hashes(home, hash)[i] == Repeats.Hashes(other, hash)[i - r.home + r.other];
    }
  }

  lemma GrownIsEqual(home: Track, other: Track, hash: seq<byte> -> int, gram: seq<int> -> int, t: Trace, p: nat)
    requires NoCollision(home, other, hash, gram) && SharedBy(home, other, hash, gram, t) && p < |t.aligned|
    ensures var r := t.aligned[p];
            r.length > 0 && r.home + r.length <= |home| && r.other + r.length <= |other| && SameBytes(home, other, r)
  {
    hide SharedBy, Distinguishes, Splices.Tells, GrownFrom, AnchorChain, GrownInTurn, Verified, Grams, SameBytes;
    SharedMeans(home, other, hash, gram, t);
    Splices.GrownAreEqual(Repeats.Hashes(home, hash), Repeats.Hashes(other, hash), gram, t.chain, t.aligned, p);
    SameByHashes(home, other, hash, t.aligned[p]);
  }

  lemma AlignedAreEqual(home: Track, other: Track, hash: seq<byte> -> int, gram: seq<int> -> int, t: Trace)
    requires NoCollision(home, other, hash, gram) && SharedBy(home, other, hash, gram, t)
    ensures t.shared == t.aligned
  {
    hide NoCollision, SameBytes, SharedBy, AnchorChain, GrownFrom, GrownInTurn, Verified, Grams;
    SharedMeans(home, other, hash, gram, t);
    forall r | r in t.aligned
      ensures r.length > 0 && r.home + r.length <= |home| && r.other + r.length <= |other| && SameBytes(home, other, r)
    {
      var p :| 0 <= p < |t.aligned| && t.aligned[p] == r;
      GrownIsEqual(home, other, hash, gram, t, p);
    }
    NothingToCut(t.aligned, home, other);
  }

  /** Sixteen frames that are in both downloads, once in each, are shared
      audio, and the diff finds some. */
  lemma SharedAudioIsFound(home: Mp3.File, other: Mp3.File, options: Options, hash: seq<byte> -> int, gram: seq<int> -> int,
                           outcome: Outcome, t: Trace, runs: seq<Run>, tiles: seq<Segment>, i: nat, j: nat)
    requires Cut.WellFormed(home) && Cut.WellFormed(other) && home.frames != []
    requires NoCollision(TrackOf(home), TrackOf(other), hash, gram)
    requires Answers(home, other, options, hash, gram, outcome, t, runs, tiles)
    requires SameSixteen(TrackOf(home), i, TrackOf(other), j) && Lone(TrackOf(home), i) && Lone(TrackOf(other), j)
    ensures !outcome.NoSharedFrames?
  {
    Answered(home, other, options, hash, gram, outcome, t, runs, tiles);
    hide Answers, Cut.WellFormed, TrackOf, Lone, SameSixteen, NoCollision, SharedBy;
    LoneIsFound(TrackOf(home), TrackOf(other), hash, gram, t, i, j);
  }

  lemma LoneIsFound(home: Track, other: Track, hash: seq<byte> -> int, gram: seq<int> -> int, t: Trace, i: nat, j: nat)
    requires NoCollision(home, other, hash, gram) && SharedBy(home, other, hash, gram, t)
    requires SameSixteen(home, i, other, j) && Lone(home, i) && Lone(other, j)
    ensures t.shared != []
  {
    LoneByHash(home, i, hash);
    LoneByHash(other, j, hash);
    SameByHash(home, i, other, j, hash);
    AlignedAreEqual(home, other, hash, gram, t);
    SharedMeans(home, other, hash, gram, t);
    hide SharedBy, Distinguishes, Splices.Tells, GrownFrom, AnchorChain, GrownInTurn, Verified, Grams, Lone, SameSixteen;
    Splices.SharedIsFound(Repeats.Hashes(home, hash), Repeats.Hashes(other, hash), gram, t.chain, t.aligned, i, j);
  }

  lemma Answered(home: Mp3.File, other: Mp3.File, options: Options, hash: seq<byte> -> int, gram: seq<int> -> int,
                       outcome: Outcome, t: Trace, runs: seq<Run>, tiles: seq<Segment>)
    requires Cut.WellFormed(home) && Cut.WellFormed(other) && home.frames != []
    requires Answers(home, other, options, hash, gram, outcome, t, runs, tiles)
    ensures Durations(home)[0] > 0
    ensures SharedBy(TrackOf(home), TrackOf(other), hash, gram, t)
    ensures ShownBy(TrackOf(home), TrackOf(other), options, Durations(home)[0], t)
    ensures outcome.NoSharedFrames? <==> t.shared == []
    ensures outcome.Identical? <==> t.shared != [] && NoGap(t.show, |home.frames|) && Lengths(t.show) == |other.frames|
    ensures outcome.Done? || outcome.Implausible? ==> Weighed(home, other, options, t, runs, tiles, outcome.result)
  {
    hide SharedBy, ShownBy, Weighed, Delivered, Passes, Cut.WellFormed;
  }

  // ---- splice points ----

  /** A splice point inside the file is a Layer III frame whose first bits after
      the header and CRC spell no bytes to borrow; every other layer has one at
      each frame. */
  lemma SplicePoint(home: Mp3.File, i: nat)
    requires Cut.WellFormed(home) && i < |home.frames|
    ensures var f := home.frames[i];
            Clean(TrackOf(home), i) <==> i == 0 || f.header.layer != 3 || HeaderBits.Spelled(Mp3.FrameBytes(home.data, f), f.header) == 0
  {
    var f := home.frames[i];
    assert Mp3.Genuine(home.data, |home.data|, f);
    if f.header.layer == 3 {
      RoundTrip.BorrowsWhatItSpells(home.data, f);
    }
    hide HeaderBits.Spelled;
  }

  // ---- one splice ----

  /** Up to p the downloads are the same; from there home has q frames the other
      has nowhere, the other r frames home has nowhere; then they are the same again. */
  ghost predicate Spliced(home: Track, other: Track, p: nat, q: nat, r: nat) {
    && p + q <= |home| && p + r <= |other| && |home| - q == |other| - r
    && (forall i | 0 <= i < p :: home[i].bytes == other[i].bytes)
    && (forall i | p + q <= i < |home| :: home[i].bytes == other[i - q + r].bytes)
    && (forall i, k | p <= i < p + q && 0 <= k < |other| :: home[i].bytes != other[k].bytes)
    && (forall k, i | p <= k < p + r && 0 <= i < |home| :: other[k].bytes != home[i].bytes)
  }

  /** The show before the splice, if there is any, has sixteen frames that are
      nowhere else; and so has the show after it. */
  ghost predicate Told(home: Track, other: Track, p: nat, q: nat, r: nat)
    requires p + q <= |home|
  {
    && |home| > q
    && (p > 0 ==> exists i: nat | i + 16 <= p :: Lone(home, i) && Lone(other, i))
    && (p + q < |home| ==> exists i: nat | p + q <= i :: Lone(home, i) && Lone(other, i - q + r))
  }

  /** The show: what is before the splice, and what is after it. */
  function ShowRuns(n: nat, p: nat, q: nat, r: nat): seq<Run>
    requires p + q <= n
  {
    if q == 0 && r == 0 then [Run(0, 0, n)]
    else (if p == 0 then [] else [Run(0, 0, p)]) + if p + q == n then [] else [Run(p + q, p + r, n - p - q)]
  }

  lemma SplicedHashes(home: Track, other: Track, p: nat, q: nat, r: nat, hash: seq<byte> -> int)
      returns (a: seq<int>, x: seq<int>, y: seq<int>, b: seq<int>)
    requires Spliced(home, other, p, q, r)
    ensures Repeats.Hashes(home, hash) == a + x + b && Repeats.Hashes(other, hash) == a + y + b
    ensures |a| == p && |x| == q && |y| == r && |b| == |home| - p - q
    ensures x == Repeats.Hashes(home, hash)[p..p + q] && y == Repeats.Hashes(other, hash)[p..p + r]
    ensures a == Repeats.Hashes(home, hash)[..p] && b == Repeats.Hashes(home, hash)[p + q..]
  {
    var h, o := Repeats.Hashes(home, hash), Repeats.Hashes(other, hash);
    a, x, y, b := h[..p], h[p..p + q], o[p..p + r], h[p + q..];
    assert h == a + x + b;
    forall k | 0 <= k < |o|
      ensures o[k] == (a + y + b)[k]
    {
      if k < p {
        assert home[k].bytes == other[k].bytes;
      } else if k < p + r {
        assert (a + y + b)[k] == y[k - p];
      } else {
        assert home[k - r + q].bytes == other[k].bytes;
        assert (a + y + b)[k] == b[k - p - r] == h[k - r + q];
      }
    }
    assert o == a + y + b;
  }

  lemma OwnByHash(home: Track, other: Track, p: nat, q: nat, r: nat, hash: seq<byte> -> int,
                  a: seq<int>, x: seq<int>, y: seq<int>, b: seq<int>)
    requires Distinguishes(hash, home, other) && Spliced(home, other, p, q, r)
    requires Repeats.Hashes(home, hash) == a + x + b && Repeats.Hashes(other, hash) == a + y + b && |a| == p && |x| == q && |y| == r
    ensures Splices.Own(x, a, y, b) && Splices.Own(y, a, x, b)
  {
    var h, o := Repeats.Hashes(home, hash), Repeats.Hashes(other, hash);
    forall v | v in x
      ensures v !in o
    {
      var k :| 0 <= k < q && x[k] == v;
      assert h[p + k] == v;
      forall j | 0 <= j < |o|
        ensures o[j] != v
      {
        assert home[p + k].bytes != other[j].bytes;
      }
    }
    forall v | v in y
      ensures v !in h
    {
      var k :| 0 <= k < r && y[k] == v;
      assert o[p + k] == v;
      forall j | 0 <= j < |h|
        ensures h[j] != v
      {
        assert home[j].bytes != other[p + k].bytes;
      }
    }
    Within(a, x, y, b);
    Within(a, y, x, b);
  }

  lemma Within(a: seq<int>, x: seq<int>, y: seq<int>, b: seq<int>)
    requires forall v | v in x :: v !in a + y + b
    ensures Splices.Own(x, a, y, b)
  {
    forall v | v in x
      ensures v !in a && v !in y && v !in b
    {
      assert v !in a + y + b;
    }
  }

  lemma AnchoredByHash(home: Track, other: Track, p: nat, q: nat, r: nat, hash: seq<byte> -> int,
                       a: seq<int>, x: seq<int>, y: seq<int>, b: seq<int>)
    requires Distinguishes(hash, home, home) && Distinguishes(hash, other, other)
    requires p + q <= |home| && Told(home, other, p, q, r)
    requires Repeats.Hashes(home, hash) == a + x + b && Repeats.Hashes(other, hash) == a + y + b && |a| == p && |x| == q && |y| == r
    ensures Splices.Anchored(a, x, y, b)
  {
    hide Lone, Distinguishes, Splices.OnlyAt;
    if a != [] {
      var i: nat :| i + 16 <= p && Lone(home, i) && Lone(other, i);
      LoneByHash(home, i, hash);
      LoneByHash(other, i, hash);
    }
    if b != [] {
      var i: nat :| p + q <= i && Lone(home, i) && Lone(other, i - q + r);
      LoneByHash(home, i, hash);
      LoneByHash(other, i - q + r, hash);
    }
  }

  /** The runs the diff finds are the show. */
  lemma SharedIsShow(home: Track, other: Track, hash: seq<byte> -> int, gram: seq<int> -> int, t: Trace, p: nat, q: nat, r: nat)
    requires NoCollision(home, other, hash, gram) && SharedBy(home, other, hash, gram, t)
    requires Spliced(home, other, p, q, r) && Told(home, other, p, q, r)
    ensures t.shared == ShowRuns(|home|, p, q, r)
  {
    AlignedAreEqual(home, other, hash, gram, t);
    SharedMeans(home, other, hash, gram, t);
    hide *;
    var a, x, y, b := SplicedHashes(home, other, p, q, r, hash);
    SplicedByHash(home, other, hash, gram, p, q, r, a, x, y, b);
    Splices.SharedExactly(a, x, y, b, gram, t.chain, t.aligned);
    ShowByHash(|home|, a, x, y, b);
  }

  lemma SplicedByHash(home: Track, other: Track, hash: seq<byte> -> int, gram: seq<int> -> int, p: nat, q: nat, r: nat,
                      a: seq<int>, x: seq<int>, y: seq<int>, b: seq<int>)
    requires NoCollision(home, other, hash, gram) && Spliced(home, other, p, q, r) && Told(home, other, p, q, r)
    requires Repeats.Hashes(home, hash) == a + x + b && Repeats.Hashes(other, hash) == a + y + b && |a| == p && |x| == q && |y| == r
    ensures Splices.Own(x, a, y, b) && Splices.Own(y, a, x, b) && Splices.Anchored(a, x, y, b) && a + b != []
    ensures Splices.Tells(gram, a + x + b, a + y + b)
  {
    hide Distinguishes, Splices.Tells, Lone, Splices.Own, Splices.Anchored;
    OwnByHash(home, other, p, q, r, hash, a, x, y, b);
    AnchoredByHash(home, other, p, q, r, hash, a, x, y, b);
    assert |home| == |a| + |x| + |b|;
  }

  lemma ShowByHash(n: nat, a: seq<int>, x: seq<int>, y: seq<int>, b: seq<int>)
    requires n == |a| + |x| + |b|
    ensures Splices.Shared(a, x, y, b) == ShowRuns(n, |a|, |x|, |y|)
  {
  }

  // ---- and trimmed as it should be ----

  /** A run between splice points is left as it is. */
  lemma CleanStays(home: Track, c: Run, unanchored: nat, first: nat, t: Trimmed)
    requires c.length > 0 && c.home + c.length <= |home| && Clean(home, c.home) && Clean(home, c.home + c.length)
    ensures Trims(home, c, unanchored, first, t) <==> first == c.home && t == Kept(c)
  {
  }

  /** Between splice points, and long enough to count. */
  predicate Standing(home: Track, minimum: nat, c: Run) {
    && c.length > 0 && c.home + c.length <= |home| && c.length >= minimum
    && Clean(home, c.home) && Clean(home, c.home + c.length)
  }

  lemma LastOfRuns(a: seq<Run>, n: nat, m: nat)
    requires InOrderRuns(a, n, m) && a != []
    ensures InOrderRuns(a[..|a| - 1], n, m)
    ensures forall r | r in a :: r == a[|a| - 1] || r.home < a[|a| - 1].home
    ensures forall r :: r in a[..|a| - 1] <==> r in a && r != a[|a| - 1]
  {
  }

  lemma SameRest(a: seq<Run>, k: nat, b: seq<Run>, l: nat, n: nat, m: nat)
    requires InOrderRuns(a, n, m) && InOrderRuns(b, n, m) && forall r :: r in a <==> r in b
    requires |a| == k + 1 && |b| == l + 1
    ensures a[k] == b[l] && forall r :: r in a[..k] <==> r in b[..l]
  {
    LastOfRuns(a, n, m);
    LastOfRuns(b, n, m);
    hide InOrderRuns;
    assert a[k] in b && b[l] in a;
    assert a[k] == b[l];
    forall r
      ensures r in a[..k] <==> r in b[..l]
    {
      assert r in a[..k] <==> r in a && r != a[k];
      assert r in b[..l] <==> r in b && r != b[l];
    }
  }

  lemma NoneOfNone(a: seq<Run>, b: seq<Run>)
    requires forall r :: r in a <==> r in b
    ensures a == [] <==> b == []
  {
    if a != [] {
      assert a[0] in a;
    }
    if b != [] {
      assert b[0] in b;
    }
  }

  /** Ordered runs are settled by which runs they are. */
  lemma {:induction false} SameRuns(a: seq<Run>, b: seq<Run>, n: nat, m: nat)
    requires InOrderRuns(a, n, m) && InOrderRuns(b, n, m) && forall r :: r in a <==> r in b
    ensures a == b
  {
    NoneOfNone(a, b);
    if a != [] {
      var k, l := |a| - 1, |b| - 1;
      SameRest(a, k, b, l, n, m);
      LastOfRuns(a, n, m);
      LastOfRuns(b, n, m);
      hide InOrderRuns;
      SameRuns(a[..k], b[..l], n, m);
      assert a == a[..k] + [a[k]] && b == b[..l] + [b[l]];
    }
  }

  lemma StandingIsShown(home: Track, other: Track, options: Options, frameDuration: nat, t: Trace)
    requires frameDuration > 0 && ShownBy(home, other, options, frameDuration, t)
    requires forall c | c in t.shared :: Standing(home, Minimum(options, frameDuration), c)
    ensures t.show == t.shared
  {
    var minimum, unanchored := Minimum(options, frameDuration), InFrames(UNANCHORED_MINIMUM, frameDuration);
    hide Minimum, InFrames, SameBytes, Trims;
    forall r
      ensures r in t.show <==> r in t.shared
    {
      forall c, first, u | c in t.shared
        ensures Trims(home, c, unanchored, first, u) <==> first == c.home && u == Kept(c)
      {
        CleanStays(home, c, unanchored, first, u);
      }
      if r in t.shared {
        var i :| 0 <= i < |t.shared| && t.shared[i] == r;
        assert Trims(home, t.shared[i], unanchored, r.home, Kept(r));
      }
    }
    SameRuns(t.show, t.shared, |home|, |other|);
  }

  // ---- the answer ----

  /** The show before and after the splice runs from splice point to splice
      point, and each part of it is long enough to count. */
  predicate Cuttable(home: Track, minimum: nat, p: nat, q: nat, r: nat)
    requires p + q <= |home|
  {
    if q == 0 && r == 0 then |home| >= minimum
    else && Clean(home, p) && Clean(home, p + q)
         && (p == 0 || p >= minimum) && (p + q == |home| || |home| - p - q >= minimum)
  }

  lemma ShowStands(home: Track, minimum: nat, p: nat, q: nat, r: nat)
    requires p + q <= |home| && |home| > 0 && Cuttable(home, minimum, p, q, r)
    ensures forall c | c in ShowRuns(|home|, p, q, r) :: Standing(home, minimum, c)
  {
  }

  /** Some run covers frame i of the home download. */
  ghost predicate InHome(runs: seq<Run>, i: nat) {
    exists c | c in runs :: Repeats.Covers(c, i)
  }

  ghost predicate InOther(runs: seq<Run>, i: nat) {
    exists c | c in runs :: Repeats.Covers(Run(c.other, c.home, c.length), i)
  }

  lemma OneRun(c: Run, n: nat)
    ensures NoGap([c], n) <==> c.home == 0 && c.length == n
    ensures Lengths([c]) == c.length
  {
    assert [c][..0] == [];
    assert NoGap([], c.home) <==> c.home == 0;
    assert Lengths([]) == 0;
  }

  lemma TwoRuns(c: Run, d: Run, n: nat)
    ensures NoGap([c, d], n) <==> d.home + d.length == n && c.home == 0 && c.length == d.home
    ensures Lengths([c, d]) == c.length + d.length
  {
    OneRun(c, d.home);
    assert [c, d][..1] == [c];
  }

  lemma ShowLengths(n: nat, p: nat, q: nat, r: nat)
    requires p + q <= n && n > q
    ensures var show := ShowRuns(n, p, q, r); (NoGap(show, n) <==> q == 0) && Lengths(show) == n - q
  {
    var first, rest := Run(0, 0, p), Run(p + q, p + r, n - p - q);
    OneRun(Run(0, 0, n), n);
    OneRun(first, n);
    OneRun(rest, n);
    TwoRuns(first, rest, n);
  }

  /** The frames of the show are those outside the splice, in both downloads. */
  lemma ShowCovers(n: nat, p: nat, q: nat, r: nat, i: nat)
    requires p + q <= n && n > q && i < n
    ensures InHome(ShowRuns(n, p, q, r), i) <==> !(p <= i < p + q)
  {
    var show := ShowRuns(n, p, q, r);
    var first, rest := Run(0, 0, p), Run(p + q, p + r, n - p - q);
    if q == 0 && r == 0 {
      assert show[0] in show && Repeats.Covers(Run(0, 0, n), i);
    } else if i < p {
      assert first in show && Repeats.Covers(first, i);
    } else if i >= p + q {
      assert rest in show && Repeats.Covers(rest, i);
    }
  }

  lemma KeptAreShow(runs: seq<Run>, durations: seq<nat>, kept: seq<Segment>, i: nat)
    requires SegmentsOf(runs, durations, kept)
    ensures HeldBy(kept, i) <==> InHome(runs, i)
  {
    hide Span;
    if s :| s in kept && s.start <= i < s.end {
      var k :| 0 <= k < |kept| && kept[k] == s;
      assert runs[k] in runs;
    }
    if c :| c in runs && Repeats.Covers(c, i) {
      var k :| 0 <= k < |runs| && runs[k] == c;
      assert kept[k] in kept;
    }
  }

  /** A frame of the show is in the other download too, and not its own there. */
  lemma ShowIsShared(home: Track, other: Track, p: nat, q: nat, r: nat, c: Run, i: nat)
    requires Spliced(home, other, p, q, r) && |home| > q && c in ShowRuns(|home|, p, q, r) && Repeats.Covers(c, i)
    ensures i < |home|
    ensures forall k | p <= k < p + q :: home[k].bytes != home[i].bytes
    ensures forall k | p <= k < p + r :: other[k].bytes != home[i].bytes
  {
    assert home[i].bytes == other[i - c.home + c.other].bytes;
  }

  lemma UncoveredIsOwn(n: nat, p: nat, q: nat, r: nat, ad: Repeats.Piece)
    requires p + q <= n && n > q && ad.start < ad.end
    ensures Repeats.UncoveredHome(ShowRuns(n, p, q, r), ad) && ad.end <= n ==> p <= ad.start < p + q
    ensures Repeats.UncoveredOther(ShowRuns(n, p, q, r), ad) && ad.end <= n - q + r ==> p <= ad.start < p + r
  {
    if ad.end <= n {
      ShowCovers(n, p, q, r, ad.start);
    }
    if ad.end <= n - q + r {
      OtherCovered(n, p, q, r, ad.start);
    }
  }

  lemma FirstFrame(a: Track, c: Repeats.Piece, b: Track, d: Repeats.Piece)
    requires c.start < c.end <= |a| && d.start < d.end <= |b| && Repeats.Content(a, c) == Repeats.Content(b, d)
    ensures a[c.start].bytes == b[d.start].bytes
  {
    assert Repeats.Content(a, c)[0] == Repeats.Content(b, d)[0];
  }

  /** Nothing the two downloads share copies what either has of its own. */
  lemma NothingCopied(home: Track, other: Track, p: nat, q: nat, r: nat, shortest: nat, c: Run, piece: Repeats.Piece)
    requires Spliced(home, other, p, q, r) && |home| > q && c in ShowRuns(|home|, p, q, r)
    ensures !Repeats.Repeated(ShowRuns(|home|, p, q, r), home, other, shortest, c, piece)
  {
    if Repeats.Repeated(ShowRuns(|home|, p, q, r), home, other, shortest, c, piece) {
      ShowIsShared(home, other, p, q, r, c, piece.start);
      hide Spliced, ShowRuns, Repeats.UncoveredHome, Repeats.UncoveredOther;
      forall ad: Repeats.Piece | ad.start < ad.end
        ensures Repeats.UncoveredHome(ShowRuns(|home|, p, q, r), ad) && ad.end <= |home| ==> p <= ad.start < p + q
        ensures Repeats.UncoveredOther(ShowRuns(|home|, p, q, r), ad) && ad.end <= |other| ==> p <= ad.start < p + r
      {
        UncoveredIsOwn(|home|, p, q, r, ad);
      }
      forall ad: Repeats.Piece | ad.start < ad.end <= |home| && Repeats.Content(home, ad) == Repeats.Content(home, piece)
        ensures home[ad.start].bytes == home[piece.start].bytes
      {
        FirstFrame(home, ad, home, piece);
      }
      forall ad: Repeats.Piece | ad.start < ad.end <= |other| && Repeats.Content(other, ad) == Repeats.Content(home, piece)
        ensures other[ad.start].bytes == home[piece.start].bytes
      {
        FirstFrame(other, ad, home, piece);
      }
      assert false;
    }
  }

  lemma OtherCovered(n: nat, p: nat, q: nat, r: nat, i: nat)
    requires p + q <= n && n > q && i < n - q + r
    ensures InOther(ShowRuns(n, p, q, r), i) <==> !(p <= i < p + r)
  {
    var show := ShowRuns(n, p, q, r);
    var first, rest := Run(0, 0, p), Run(p + q, p + r, n - p - q);
    if q == 0 && r == 0 {
      assert show[0] in show && Repeats.Covers(Run(0, 0, n), i);
    } else if i < p {
      assert first in show && Repeats.Covers(first, i);
    } else if i >= p + r {
      assert rest in show && Repeats.Covers(Run(p + r, p + q, n - p - q), i);
    }
  }

  lemma ShowIsLeft(home: Track, other: Track, options: Options, frameDuration: nat, t: Trace, runs: seq<Run>, p: nat, q: nat, r: nat)
    requires Spliced(home, other, p, q, r) && |home| > q && t.show == ShowRuns(|home|, p, q, r)
    requires frameDuration > 0 && RemovedBy(home, other, options, frameDuration, t, runs) && !options.trimBreakMarkers
    ensures runs == t.show && (options.removeRepeatedAds ==> t.repeats == [])
  {
    if options.removeRepeatedAds {
      var shortest, minimum := InFrames(MIN_REPEATED_AD, frameDuration), Minimum(options, frameDuration);
      forall c, piece | c in t.show
        ensures !Repeats.Repeated(t.show, home, other, shortest, c, piece)
      {
        NothingCopied(home, other, p, q, r, shortest, c, piece);
      }
      hide Spliced, ShowRuns, Repeats.Repeated, SameBytes;
      Repeats.NothingRepeated(t.show, home, other, shortest, minimum);
      hide InOrderRuns;
      SameRuns(runs, t.show, |home|, |other|);
      NoneOfNone(t.repeats, []);
    }
  }

  /** Two files spliced at one place, where both may be cut, and hashes that
      tell their frames apart. */
  ghost predicate OneSplice(home: Mp3.File, other: Mp3.File, options: Options, hash: seq<byte> -> int, gram: seq<int> -> int,
                            p: nat, q: nat, r: nat)
    requires Cut.WellFormed(home) && Cut.WellFormed(other) && home.frames != []
  {
    var homeTrack, otherTrack, frameDuration := TrackOf(home), TrackOf(other), Durations(home)[0];
    && NoCollision(homeTrack, otherTrack, hash, gram)
    && Spliced(homeTrack, otherTrack, p, q, r) && Told(homeTrack, otherTrack, p, q, r)
    && frameDuration > 0 && Cuttable(homeTrack, Minimum(options, frameDuration), p, q, r)
  }

  /** The answer to a splice, in terms of the runs. */
  lemma SpliceIsSeen(home: Mp3.File, other: Mp3.File, options: Options, hash: seq<byte> -> int, gram: seq<int> -> int,
                     outcome: Outcome, t: Trace, runs: seq<Run>, tiles: seq<Segment>, p: nat, q: nat, r: nat)
    requires Cut.WellFormed(home) && Cut.WellFormed(other) && home.frames != []
    requires OneSplice(home, other, options, hash, gram, p, q, r)
    requires Answers(home, other, options, hash, gram, outcome, t, runs, tiles)
    ensures t.shared == t.show == ShowRuns(|home.frames|, p, q, r)
    ensures outcome.Identical? <==> t.shared != [] && NoGap(t.show, |home.frames|) && Lengths(t.show) == |other.frames|
    ensures outcome.NoSharedFrames? <==> t.shared == []
  {
    var homeTrack, otherTrack, frameDuration := TrackOf(home), TrackOf(other), Durations(home)[0];
    Answered(home, other, options, hash, gram, outcome, t, runs, tiles);
    hide Answers, Cut.WellFormed, TrackOf, Durations, NoCollision, Spliced, SharedBy, ShownBy, Minimum, Cuttable, ShowRuns, Standing;
    SharedIsShow(homeTrack, otherTrack, hash, gram, t, p, q, r);
    ShowStands(homeTrack, Minimum(options, frameDuration), p, q, r);
    StandingIsShown(homeTrack, otherTrack, options, frameDuration, t);
  }

  /** What the other download has of its own is the only gap in it. */
  lemma OwnIsGap(n: nat, p: nat, q: nat, r: nat, frameDuration: nat)
    requires p + q <= n && n > q
    ensures AdGaps(ShowRuns(n, p, q, r), n - q + r, frameDuration)
            == if r * frameDuration >= 5_000_000_000 then (r * frameDuration, 1) else (0, 0)
  {
    var show := ShowRuns(n, p, q, r);
    var spans, size := Others(show), n - q + r;
    assert 0 * frameDuration == 0;
    if q == 0 && r == 0 {
      GapsOfOne(spans, size, frameDuration);
    } else if p == 0 || p + q == n {
      GapsOfOne(spans, size, frameDuration);
    } else {
      GapsOfTwo(spans, size, frameDuration);
    }
  }

  lemma GapsOfOne(spans: Gaps.Spans, size: nat, unit: nat)
    requires |spans| == 1
    ensures var first := Gaps.WithStretch((0, 0), 0, spans[0].0, unit, MIN_AUDIO_BREAK);
            Gaps.LongGaps(spans, 2, size, unit, MIN_AUDIO_BREAK) == Gaps.WithStretch(first, spans[0].1, size, unit, MIN_AUDIO_BREAK)
  {
    hide Gaps.WithStretch;
    assert Gaps.LongGaps(spans, 0, size, unit, MIN_AUDIO_BREAK) == (0, 0);
    assert Gaps.LongGaps(spans, 1, size, unit, MIN_AUDIO_BREAK) == Gaps.WithStretch((0, 0), 0, spans[0].0, unit, MIN_AUDIO_BREAK);
  }

  lemma GapsOfTwo(spans: Gaps.Spans, size: nat, unit: nat)
    requires |spans| == 2
    ensures var first := Gaps.WithStretch((0, 0), 0, spans[0].0, unit, MIN_AUDIO_BREAK);
            var second := Gaps.WithStretch(first, spans[0].1, spans[1].0, unit, MIN_AUDIO_BREAK);
            Gaps.LongGaps(spans, 3, size, unit, MIN_AUDIO_BREAK) == Gaps.WithStretch(second, spans[1].1, size, unit, MIN_AUDIO_BREAK)
  {
    hide Gaps.WithStretch;
    assert Gaps.LongGaps(spans, 0, size, unit, MIN_AUDIO_BREAK) == (0, 0);
    assert Gaps.LongGaps(spans, 1, size, unit, MIN_AUDIO_BREAK) == Gaps.WithStretch((0, 0), 0, spans[0].0, unit, MIN_AUDIO_BREAK);
  }

  lemma SpliceMeans(home: Mp3.File, other: Mp3.File, options: Options, hash: seq<byte> -> int, gram: seq<int> -> int, p: nat, q: nat, r: nat)
    requires Cut.WellFormed(home) && Cut.WellFormed(other) && home.frames != []
    requires OneSplice(home, other, options, hash, gram, p, q, r)
    ensures p + q <= |home.frames| && |home.frames| > q && |other.frames| == |home.frames| - q + r
    ensures Spliced(TrackOf(home), TrackOf(other), p, q, r)
  {
    hide Cut.WellFormed, NoCollision, Lone, Minimum, Clean;
  }

  lemma ShowIsSome(n: nat, p: nat, q: nat, r: nat)
    requires p + q <= n && n > q
    ensures ShowRuns(n, p, q, r) != []
  {
  }

  lemma ReportedSplits(home: Mp3.File, other: Mp3.File, runs: seq<Run>, tiles: seq<Segment>, result: Result, p: nat, q: nat, r: nat)
    requires Cut.WellFormed(home) && Cut.WellFormed(other) && home.frames != [] && Durations(home)[0] > 0
    requires p + q <= |home.frames| && |home.frames| > q && runs == ShowRuns(|home.frames|, p, q, r)
    requires Reported(home, other, runs, tiles, Durations(home)[0], result)
    ensures forall i | 0 <= i < |home.frames| :: HeldBy(result.kept, i) <==> !(p <= i < p + q)
    ensures forall i | 0 <= i < |home.frames| :: HeldBy(result.removed, i) <==> p <= i < p + q
    ensures (result.otherExtra, result.otherBreaks) == AdGaps(runs, |other.frames|, Durations(home)[0])
  {
    hide Cut.WellFormed, HeldBy, ShowRuns, AdGaps, Partition, SegmentsOf, Span, Durations;
    forall i | 0 <= i < |home.frames|
      ensures HeldBy(result.kept, i) <==> !(p <= i < p + q)
      ensures HeldBy(result.removed, i) <==> p <= i < p + q
    {
      KeptAreShow(runs, Durations(home), result.kept, i);
      KeptOrRemoved(result.kept, result.removed, tiles, Durations(home), i);
      ShowCovers(|home.frames|, p, q, r, i);
    }
  }

  /** Two downloads spliced at one place, with hashes that tell their frames
      apart: the diff calls them identical exactly when neither has anything
      of its own there. */
  lemma SameOrSpliced(home: Mp3.File, other: Mp3.File, options: Options, hash: seq<byte> -> int, gram: seq<int> -> int,
                      outcome: Outcome, t: Trace, runs: seq<Run>, tiles: seq<Segment>, p: nat, q: nat, r: nat)
    requires Cut.WellFormed(home) && Cut.WellFormed(other) && home.frames != []
    requires OneSplice(home, other, options, hash, gram, p, q, r)
    requires Answers(home, other, options, hash, gram, outcome, t, runs, tiles)
    ensures !outcome.NoSharedFrames? && (outcome.Identical? <==> q == 0 && r == 0)
  {
    hide *;
    SpliceIsSeen(home, other, options, hash, gram, outcome, t, runs, tiles, p, q, r);
    SpliceMeans(home, other, options, hash, gram, p, q, r);
    ShowLengths(|home.frames|, p, q, r);
    ShowIsSome(|home.frames|, p, q, r);
  }

  /** Two files with the same frames, long enough to count and with a group
      that occurs once, are called identical. */
  lemma EqualIsIdentical(home: Mp3.File, other: Mp3.File, options: Options, hash: seq<byte> -> int, gram: seq<int> -> int,
                         outcome: Outcome, t: Trace, runs: seq<Run>, tiles: seq<Segment>, i: nat)
    requires Cut.WellFormed(home) && Cut.WellFormed(other) && home.frames != []
    requires SameFrames(home, other) && NoCollision(TrackOf(home), TrackOf(other), hash, gram)
    requires Answers(home, other, options, hash, gram, outcome, t, runs, tiles)
    requires |home.frames| >= Minimum(options, Durations(home)[0]) && Lone(TrackOf(home), i)
    ensures outcome.Identical?
  {
    var n := |home.frames|;
    hide *;
    Answered(home, other, options, hash, gram, outcome, t, runs, tiles);
    SameTracks(home, other);
    SameIsSpliced(TrackOf(home), TrackOf(other), i);
    EqualIsOneSplice(home, other, options, hash, gram);
    SameOrSpliced(home, other, options, hash, gram, outcome, t, runs, tiles, n, 0, 0);
  }

  lemma SameTracks(home: Mp3.File, other: Mp3.File)
    requires Cut.WellFormed(home) && Cut.WellFormed(other) && SameFrames(home, other)
    ensures |home.frames| == |other.frames| && forall i | 0 <= i < |home.frames| :: TrackOf(home)[i].bytes == TrackOf(other)[i].bytes
  {
    forall i | 0 <= i < |home.frames|
      ensures TrackOf(home)[i].bytes == TrackOf(other)[i].bytes
    {
      assert Mp3.FrameBytes(home.data, home.frames[i]) == Mp3.FrameBytes(other.data, other.frames[i]);
    }
  }

  lemma EqualIsOneSplice(home: Mp3.File, other: Mp3.File, options: Options, hash: seq<byte> -> int, gram: seq<int> -> int)
    requires Cut.WellFormed(home) && Cut.WellFormed(other) && home.frames != [] && Durations(home)[0] > 0
    requires var n := |home.frames|;
             && NoCollision(TrackOf(home), TrackOf(other), hash, gram) && n >= Minimum(options, Durations(home)[0])
             && Spliced(TrackOf(home), TrackOf(other), n, 0, 0) && Told(TrackOf(home), TrackOf(other), n, 0, 0)
    ensures OneSplice(home, other, options, hash, gram, |home.frames|, 0, 0)
  {
    hide NoCollision, Spliced, Told, Cut.WellFormed, Minimum;
  }

  lemma SameIsSpliced(home: Track, other: Track, i: nat)
    requires |home| == |other| && forall k | 0 <= k < |home| :: home[k].bytes == other[k].bytes
    requires Lone(home, i)
    ensures Spliced(home, other, |home|, 0, 0) && Told(home, other, |home|, 0, 0)
  {
    forall k: nat | k != i
      ensures !SameSixteen(other, i, other, k)
    {
      if SameSixteen(other, i, other, k) {
        forall l | i <= l < i + 16
          ensures home[l].bytes == home[l - i + k].bytes
        {
          assert other[l].bytes == other[l - i + k].bytes;
        }
        assert SameSixteen(home, i, home, k);
      }
    }
    assert Lone(other, i);
  }

  /** Then, when no markers are to be trimmed, the frames kept are exactly
      those outside the splice, those removed are those of the splice, and the
      other download's extra audio is what it has there, if that is long enough. */
  lemma InsertedIsRemoved(home: Mp3.File, other: Mp3.File, options: Options, hash: seq<byte> -> int, gram: seq<int> -> int,
                          outcome: Outcome, t: Trace, runs: seq<Run>, tiles: seq<Segment>, p: nat, q: nat, r: nat)
    requires Cut.WellFormed(home) && Cut.WellFormed(other) && home.frames != []
    requires OneSplice(home, other, options, hash, gram, p, q, r)
    requires Answers(home, other, options, hash, gram, outcome, t, runs, tiles)
    requires (q > 0 || r > 0) && !options.trimBreakMarkers
    ensures outcome.Done? || outcome.Implausible?
    ensures forall i | 0 <= i < |home.frames| :: HeldBy(outcome.result.kept, i) <==> !(p <= i < p + q)
    ensures forall i | 0 <= i < |home.frames| :: HeldBy(outcome.result.removed, i) <==> p <= i < p + q
    ensures var extra := r * Durations(home)[0];
            (outcome.result.otherExtra, outcome.result.otherBreaks) == if extra >= 5_000_000_000 then (extra, 1) else (0, 0)
  {
    hide *;
    SameOrSpliced(home, other, options, hash, gram, outcome, t, runs, tiles, p, q, r);
    SpliceIsSeen(home, other, options, hash, gram, outcome, t, runs, tiles, p, q, r);
    SpliceMeans(home, other, options, hash, gram, p, q, r);
    Answered(home, other, options, hash, gram, outcome, t, runs, tiles);
    WeighedMeans(home, other, options, t, runs, tiles, outcome.result);
    ShowIsLeft(TrackOf(home), TrackOf(other), options, Durations(home)[0], t, runs, p, q, r);
    OwnIsGap(|home.frames|, p, q, r, Durations(home)[0]);
    ReportedSplits(home, other, runs, tiles, outcome.result, p, q, r);
  }

  lemma WeighedMeans(home: Mp3.File, other: Mp3.File, options: Options, t: Trace, runs: seq<Run>, tiles: seq<Segment>, r: Result)
    requires Cut.WellFormed(home) && Cut.WellFormed(other) && home.frames != [] && Durations(home)[0] > 0
    requires Weighed(home, other, options, t, runs, tiles, r)
    ensures RemovedBy(TrackOf(home), TrackOf(other), options, Durations(home)[0], t, runs)
    ensures Reported(home, other, runs, tiles, Durations(home)[0], r)
  {
    hide RemovedBy, Reported, Cut.WellFormed, TrackOf, Durations, PieceSegments;
  }
}
