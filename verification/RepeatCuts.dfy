/** What the removal of repeats does to single frames: a whole piece of a kept
    run goes exactly when it is a copy, byte for byte, of one outside all kept
    runs. */
module RepeatCuts {
  import opened Common
  import opened Runs
  import opened Boundaries
  import opened Repeats

  /** From one splice point to the next. */
  ghost predicate Between(frames: Track, from: nat, to: nat) {
    && from < to <= |frames| && Clean(frames, from) && Clean(frames, to)
    && forall i | from < i < to :: !Clean(frames, i)
  }

  /** n frames from a on have the bytes of as many from b on. */
  ghost predicate Copies(x: Track, a: nat, y: Track, b: nat, n: nat) {
    && a + n <= |x| && b + n <= |y|
    && forall i | a <= i < a + n :: x[i].bytes == y[i - a + b].bytes
  }

  predicate CoversOther(r: Run, i: nat) {
    r.other <= i < r.other + r.length
  }

  /** No kept run has any frame of [from, to), of the home download or the other. */
  ghost predicate OutsideHome(kept: seq<Run>, from: nat, to: nat) {
    forall r, i: nat | r in kept && from <= i < to :: !Covers(r, i)
  }

  ghost predicate OutsideOther(kept: seq<Run>, from: nat, to: nat) {
    forall r, i: nat | r in kept && from <= i < to :: !CoversOther(r, i)
  }

  /** Home frames [from, to) have the bytes of frames [a, b) of x, which go from
      one splice point to the next. */
  ghost predicate CopyOf(home: Track, from: nat, to: nat, x: Track, a: nat, b: nat)
    requires from <= to
  {
    Between(x, a, b) && b - a == to - from && Copies(home, from, x, a, to - from)
  }

  /** They are a copy of frames outside all kept runs. */
  ghost predicate CopyOfAd(kept: seq<Run>, home: Track, other: Track, from: nat, to: nat)
    requires from <= to
  {
    || (exists a: nat, b: nat :: CopyOf(home, from, to, home, a, b) && OutsideHome(kept, a, b))
    || (exists a: nat, b: nat :: CopyOf(home, from, to, other, a, b) && OutsideOther(kept, a, b))
  }

  lemma SameContent(x: Track, a: nat, y: Track, b: nat, n: nat)
    requires a + n <= |x| && b + n <= |y|
    ensures Content(x, Piece(a, a + n)) == Content(y, Piece(b, b + n)) <==> Copies(x, a, y, b, n)
  {
    var c, d := Content(x, Piece(a, a + n)), Content(y, Piece(b, b + n));
    assert forall i | a <= i < a + n :: c[i - a] == x[i].bytes && d[i - a] == y[i - a + b].bytes;
    if Copies(x, a, y, b, n) {
      forall k | 0 <= k < n
        ensures c[k] == d[k]
      {
        assert x[a + k].bytes == y[a + k - a + b].bytes;
      }
    }
  }

  lemma OutsideIsUncovered(kept: seq<Run>, p: Piece)
    requires p.start < p.end && forall r | r in kept :: r.length > 0
    ensures OutsideHome(kept, p.start, p.end) <==> UncoveredHome(kept, p)
    ensures OutsideOther(kept, p.start, p.end) <==> UncoveredOther(kept, p)
  {
    if OutsideHome(kept, p.start, p.end) {
      forall r | r in kept
        ensures p.end <= r.home || r.home + r.length <= p.start
      {
        assert r.home < p.start < p.end ==> !Covers(r, p.start);
        assert p.start <= r.home < p.end ==> !Covers(r, r.home);
      }
    }
    if OutsideOther(kept, p.start, p.end) {
      forall r | r in kept
        ensures p.end <= r.other || r.other + r.length <= p.start
      {
        assert r.other < p.start < p.end ==> !CoversOther(r, p.start);
        assert p.start <= r.other < p.end ==> !CoversOther(r, r.other);
      }
    }
  }

  lemma WholeIsBetween(frames: Track, from: nat, to: nat, shortest: nat, p: Piece)
    ensures Whole(frames, from, to, shortest, p) <==>
            from <= p.start && p.end <= to <= |frames| && Between(frames, p.start, p.end) && p.end - p.start >= shortest
  {
  }

  /** A piece with the same bytes is what is copied. */
  lemma PieceIsCopied(home: Track, x: Track, shortest: nat, p: Piece, ad: Piece)
    requires p.start < p.end <= |home| && p.end - p.start >= shortest
    ensures Whole(x, 0, |x|, shortest, ad) && Content(x, ad) == Content(home, p) <==> CopyOf(home, p.start, p.end, x, ad.start, ad.end)
  {
    WholeIsBetween(x, 0, |x|, shortest, ad);
    if Between(x, ad.start, ad.end) {
      assert |Content(x, ad)| == ad.end - ad.start && |Content(home, p)| == p.end - p.start;
      if ad.end - ad.start == p.end - p.start {
        SameContent(home, p.start, x, ad.start, p.end - p.start);
      }
    }
    hide Clean, Content, Copies;
  }

  /** What copies an ad is such a copy. */
  lemma AdIsCopied(kept: seq<Run>, home: Track, other: Track, shortest: nat, p: Piece)
    requires p.start < p.end <= |home| && p.end - p.start >= shortest && forall r | r in kept :: r.length > 0
    ensures IsAd(kept, home, other, shortest, Content(home, p)) <==> CopyOfAd(kept, home, other, p.start, p.end)
  {
    forall ad: Piece
      ensures Whole(home, 0, |home|, shortest, ad) && Content(home, ad) == Content(home, p) <==> CopyOf(home, p.start, p.end, home, ad.start, ad.end)
      ensures Whole(other, 0, |other|, shortest, ad) && Content(other, ad) == Content(home, p) <==> CopyOf(home, p.start, p.end, other, ad.start, ad.end)
    {
      PieceIsCopied(home, home, shortest, p, ad);
      PieceIsCopied(home, other, shortest, p, ad);
    }
    forall ad: Piece | ad.start < ad.end
      ensures UncoveredHome(kept, ad) <==> OutsideHome(kept, ad.start, ad.end)
      ensures UncoveredOther(kept, ad) <==> OutsideOther(kept, ad.start, ad.end)
    {
      OutsideIsUncovered(kept, ad);
    }
    CopiesGoForward(home, p.start, p.end);
    hide UncoveredHome, UncoveredOther, OutsideHome, OutsideOther, Content, Whole, CopyOf;
    if a: nat, b: nat :| CopyOf(home, p.start, p.end, home, a, b) && OutsideHome(kept, a, b) {
      assert Content(home, Piece(a, b)) == Content(home, p);
    }
    if a: nat, b: nat :| CopyOf(home, p.start, p.end, other, a, b) && OutsideOther(kept, a, b) {
      assert Content(other, Piece(a, b)) == Content(home, p);
    }
  }

  lemma CopiesGoForward(home: Track, from: nat, to: nat)
    requires from < to
    ensures forall x: Track, a: nat, b: nat | CopyOf(home, from, to, x, a, b) :: a < b <= |x|
  {
  }

  /** A whole piece of a kept run that copies an ad, as that. */
  lemma RepeatedMeans(kept: seq<Run>, home: Track, other: Track, shortest: nat, c: Run, from: nat, to: nat)
    requires from < to && c.home + c.length <= |home| && forall r | r in kept :: r.length > 0
    ensures Repeated(kept, home, other, shortest, c, Piece(from, to)) <==>
            && c.home <= from && to <= c.home + c.length
            && Between(home, from, to) && to - from >= shortest && CopyOfAd(kept, home, other, from, to)
  {
    WholeIsBetween(home, c.home, c.home + c.length, shortest, Piece(from, to));
    hide Whole, CopyOfAd, IsAd, Content;
    if Between(home, from, to) && to - from >= shortest {
      AdIsCopied(kept, home, other, shortest, Piece(from, to));
    }
  }

  /** Frames [from, to) are removed as a repeat exactly when they lie in a kept
      run, from one splice point to the next, are long enough, and are a copy of
      frames outside all kept runs. */
  lemma RemovedExactly(kept: seq<Run>, home: Track, other: Track, shortest: nat, repeats: seq<Run>, from: nat, to: nat)
    requires Sound(kept, home, other) && from < to
    requires forall r :: r in repeats <==> RepeatIn(kept, |kept|, home, other, shortest, r)
    ensures Run(from, 0, to - from) in repeats <==>
            && (exists c | c in kept :: c.home <= from && to <= c.home + c.length)
            && Between(home, from, to) && to - from >= shortest && CopyOfAd(kept, home, other, from, to)
  {
    hide SameBytes, Repeated, CopyOfAd, Between;
    forall q | 0 <= q < |kept|
      ensures Repeated(kept, home, other, shortest, kept[q], Piece(from, to)) <==>
              kept[q].home <= from && to <= kept[q].home + kept[q].length && Between(home, from, to) && to - from >= shortest
              && CopyOfAd(kept, home, other, from, to)
    {
      RepeatedMeans(kept, home, other, shortest, kept[q], from, to);
    }
    hide Sound;
    assert Run(from, 0, to - from) in repeats <==> RepeatIn(kept, |kept|, home, other, shortest, Run(from, 0, to - from));
  }

  /** No frame of a repeat is left. */
  lemma RemovedAreGone(kept: seq<Run>, home: Track, other: Track, shortest: nat, minimum: nat, repeat: Run, left: Run, i: nat)
    requires Sound(kept, home, other) && minimum >= 1
    requires RepeatIn(kept, |kept|, home, other, shortest, repeat) && LeftIn(kept, |kept|, home, other, shortest, minimum, left)
    ensures !(Covers(repeat, i) && Covers(left, i))
  {
    hide Repeated, CutsOf, SurvivesBefore, SameBytes, Left;
    var p := Piece(repeat.home, repeat.home + repeat.length);
    var q :| 0 <= q < |kept| && Repeated(kept, home, other, shortest, kept[q], p);
    var l :| 0 <= l < |kept| && Left(kept, home, other, shortest, minimum, kept[l], left);
    RepeatIsInside(kept, home, other, shortest, kept[q], p);
    LeftIsInside(kept, home, other, shortest, minimum, kept[l], left);
    if q == l {
      CutIsNotLeft(kept, home, other, shortest, minimum, kept[l], left, p, i);
    }
  }

  lemma RepeatIsInside(kept: seq<Run>, home: Track, other: Track, shortest: nat, c: Run, p: Piece)
    requires Repeated(kept, home, other, shortest, c, p)
    ensures c.home <= p.start < p.end <= c.home + c.length
  {
  }

  lemma LeftIsInside(kept: seq<Run>, home: Track, other: Track, shortest: nat, minimum: nat, c: Run, left: Run)
    requires Left(kept, home, other, shortest, minimum, c, left)
    ensures c.home <= left.home && left.home + left.length <= c.home + c.length
  {
    hide CutsOf;
    var cuts :| CutsOf(kept, home, other, shortest, c, cuts)
                && if cuts == [] then left == c else SurvivesBefore(c, cuts, minimum, |cuts| + 1, left);
    CutsAreInside(kept, home, other, shortest, c, cuts);
    if cuts != [] {
      var j :| 0 <= j < |cuts| + 1 && Survives(c, cuts, minimum, j, left);
      StretchBounds(c, cuts, j);
    }
  }

  lemma CutIsNotLeft(kept: seq<Run>, home: Track, other: Track, shortest: nat, minimum: nat, c: Run, left: Run, p: Piece, i: nat)
    requires Left(kept, home, other, shortest, minimum, c, left) && Repeated(kept, home, other, shortest, c, p)
    ensures !(p.start <= i < p.end && Covers(left, i))
  {
    hide Repeated;
    var cuts :| CutsOf(kept, home, other, shortest, c, cuts)
                && if cuts == [] then left == c else SurvivesBefore(c, cuts, minimum, |cuts| + 1, left);
    CutsAreInside(kept, home, other, shortest, c, cuts);
    assert p in cuts;
    hide CutsOf;
    var j :| 0 <= j < |cuts| + 1 && Survives(c, cuts, minimum, j, left);
    BesideCut(c, cuts, minimum, j, left, p, i);
  }

  lemma BesideCut(c: Run, cuts: seq<Piece>, minimum: nat, j: nat, left: Run, p: Piece, i: nat)
    requires CutsInside(c, cuts) && p in cuts && j <= |cuts| && Survives(c, cuts, minimum, j, left)
    ensures !(p.start <= i < p.end && Covers(left, i))
  {
    var k :| 0 <= k < |cuts| && cuts[k] == p;
    if k < j - 1 {
      assert cuts[k].end <= cuts[j - 1].start && cuts[j - 1] in cuts;
    }
    if k > j {
      assert cuts[j].end <= cuts[k].start && cuts[j] in cuts;
    }
  }

  // ---- what is left of a run ----

  /** r is paired as c is and holds no frame of a cut; it begins where c does or
      a cut ends, and ends where c does or a cut begins. */
  ghost predicate Remains(c: Run, cuts: seq<Piece>, r: Run) {
    && PartOf(r, c)
    && (forall p, i: nat | p in cuts && p.start <= i < p.end :: !Covers(r, i))
    && (r.home == c.home || exists p :: p in cuts && p.end == r.home)
    && (r.home + r.length == c.home + c.length || exists p :: p in cuts && p.start == r.home + r.length)
  }

  /** What is left of a run is the run itself if nothing in it repeats, and
      otherwise all that remains between repeats and is long enough. */
  lemma LeftExactly(kept: seq<Run>, home: Track, other: Track, shortest: nat, minimum: nat, c: Run, cuts: seq<Piece>, r: Run)
    requires minimum >= 1 && InOrderPieces(cuts) && forall p :: p in cuts <==> Repeated(kept, home, other, shortest, c, p)
    ensures Left(kept, home, other, shortest, minimum, c, r) <==> if cuts == [] then r == c else Remains(c, cuts, r) && r.length >= minimum
  {
    assert CutsOf(kept, home, other, shortest, c, cuts);
    CutsAreInside(kept, home, other, shortest, c, cuts);
    forall same | CutsOf(kept, home, other, shortest, c, same)
      ensures same == cuts
    {
      CutsAreInside(kept, home, other, shortest, c, same);
      OneOrder(c, same, cuts);
    }
    hide CutsOf, Repeated, SurvivesBefore, Remains;
    assert Left(kept, home, other, shortest, minimum, c, r) <==> if cuts == [] then r == c else SurvivesBefore(c, cuts, minimum, |cuts| + 1, r);
    if cuts != [] {
      SurvivesIsRemains(c, cuts, minimum, r);
    }
  }

  lemma {:induction false} OneOrder(c: Run, a: seq<Piece>, b: seq<Piece>)
    requires CutsInside(c, a) && CutsInside(c, b) && forall p :: p in a <==> p in b
    ensures a == b
  {
    if a != [] && b != [] {
      var k, l := |a| - 1, |b| - 1;
      LastPiece(c, a, k);
      LastPiece(c, b, l);
      hide CutsInside;
      assert a[k] in b && b[l] in a;
      forall p
        ensures p in a[..k] <==> p in b[..l]
      {
        assert p in a[..k] <==> p in a && p != a[k];
        assert p in b[..l] <==> p in b && p != b[l];
      }
      OneOrder(c, a[..k], b[..l]);
      assert a == a[..k] + [a[k]] && b == b[..l] + [b[l]];
    } else {
      BothEmpty(a, b);
    }
  }

  lemma BothEmpty(a: seq<Piece>, b: seq<Piece>)
    requires forall p :: p in a <==> p in b
    ensures a == [] <==> b == []
  {
    if a != [] {
      assert a[0] in a;
    }
    if b != [] {
      assert b[0] in b;
    }
  }

  lemma LastPiece(c: Run, a: seq<Piece>, k: nat)
    requires CutsInside(c, a) && |a| == k + 1
    ensures CutsInside(c, a[..k]) && forall p :: p in a[..k] <==> p in a && p != a[k]
    ensures forall p | p in a :: p == a[k] || p.end <= a[k].start
  {
    assert a[k] in a;
    forall p | p in a[..k]
      ensures p != a[k]
    {
      var i :| 0 <= i < k && a[i] == p;
      assert a[i] in a;
    }
  }

  lemma SurvivesIsRemains(c: Run, cuts: seq<Piece>, minimum: nat, r: Run)
    requires minimum >= 1 && CutsInside(c, cuts)
    ensures SurvivesBefore(c, cuts, minimum, |cuts| + 1, r) <==> Remains(c, cuts, r) && r.length >= minimum
  {
    if SurvivesBefore(c, cuts, minimum, |cuts| + 1, r) {
      var j :| 0 <= j < |cuts| + 1 && Survives(c, cuts, minimum, j, r);
      StretchBounds(c, cuts, j);
      forall p, i: nat | p in cuts && p.start <= i < p.end
        ensures !Covers(r, i)
      {
        BesideCut(c, cuts, minimum, j, r, p, i);
      }
      assert j > 0 ==> cuts[j - 1] in cuts;
      assert j < |cuts| ==> cuts[j] in cuts;
    }
    if Remains(c, cuts, r) && r.length >= minimum {
      RemainsSurvives(c, cuts, minimum, r);
    }
  }

  lemma RemainsSurvives(c: Run, cuts: seq<Piece>, minimum: nat, r: Run)
    requires minimum >= 1 && CutsInside(c, cuts) && Remains(c, cuts, r) && r.length >= minimum
    ensures SurvivesBefore(c, cuts, minimum, |cuts| + 1, r)
  {
    var j := 0;
    while j < |cuts| && cuts[j].end <= r.home
      invariant j <= |cuts| && forall k | 0 <= k < j :: cuts[k].end <= r.home
    {
      j := j + 1;
    }
    forall k | j <= k < |cuts|
      ensures r.home + r.length <= cuts[k].start
    {
      assert cuts[j] in cuts && cuts[k] in cuts && r.home < cuts[j].end;
      assert cuts[j].start <= r.home ==> !Covers(r, r.home);
      assert r.home < cuts[j].start < r.home + r.length ==> !Covers(r, cuts[j].start);
    }
    StartsAt(c, cuts, j, r);
    EndsAt(c, cuts, j, r);
    assert Survives(c, cuts, minimum, j, r);
  }

  lemma StartsAt(c: Run, cuts: seq<Piece>, j: nat, r: Run)
    requires CutsInside(c, cuts) && Remains(c, cuts, r) && r.length > 0 && j <= |cuts|
    requires forall k | 0 <= k < j :: cuts[k].end <= r.home
    requires forall k | j <= k < |cuts| :: r.home + r.length <= cuts[k].start
    ensures r.home == StretchFrom(c, cuts, j)
  {
    if r.home != c.home {
      var p :| p in cuts && p.end == r.home;
      var k :| 0 <= k < |cuts| && cuts[k] == p;
    }
    if j > 0 {
      assert cuts[j - 1] in cuts;
    }
  }

  lemma EndsAt(c: Run, cuts: seq<Piece>, j: nat, r: Run)
    requires CutsInside(c, cuts) && Remains(c, cuts, r) && r.length > 0 && j <= |cuts|
    requires forall k | 0 <= k < j :: cuts[k].end <= r.home
    requires forall k | j <= k < |cuts| :: r.home + r.length <= cuts[k].start
    ensures r.home + r.length == StretchTo(c, cuts, j)
  {
    var end := r.home + r.length;
    if j < |cuts| {
      assert cuts[j] in cuts;
    }
    if end != c.home + c.length {
      var p :| p in cuts && p.start == end;
      var k :| 0 <= k < |cuts| && cuts[k] == p;
    }
  }
}
