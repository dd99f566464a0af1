/** The byte check that makes runs independent of hash collisions, and the
    trim of a run to where a host can really splice. */
module Boundaries {
  import opened Runs
  import opened Alignment

  /** The run's frames are byte for byte the same in both downloads. */
  ghost predicate SameBytes(home: Track, other: Track, r: Run)
    requires r.home + r.length <= |home| && r.other + r.length <= |other|
  {
    forall i | r.home <= i < r.home + r.length :: home[i].bytes == other[i - r.home + r.other].bytes
  }

  /** What every stage keeps: runs in order and disjoint in both downloads,
      each of identical frames. */
  ghost predicate Sound(runs: seq<Run>, home: Track, other: Track) {
    && InOrderRuns(runs, |home|, |other|)
    && forall p | 0 <= p < |runs| :: SameBytes(home, other, runs[p])
  }

  /** r is part of c, paired the same way. */
  predicate PartOf(r: Run, c: Run) {
    c.home <= r.home && r.home + r.length <= c.home + c.length && r.other - c.other == r.home - c.home
  }

  lemma PartKeepsBytes(home: Track, other: Track, r: Run, c: Run)
    requires c.home + c.length <= |home| && c.other + c.length <= |other|
    requires SameBytes(home, other, c) && PartOf(r, c)
    ensures SameBytes(home, other, r)
  {
    forall i | r.home <= i < r.home + r.length
      ensures home[i].bytes == other[i - r.home + r.other].bytes
    {
      assert home[i].bytes == other[i - c.home + c.other].bytes;
    }
  }

  /** Adding a part of the next run after everything kept so far. */
  lemma AppendPart(result: seq<Run>, r: Run, c: Run, home: Track, other: Track)
    requires Sound(result, home, other) && r.length > 0
    requires c.home + c.length <= |home| && c.other + c.length <= |other|
    requires SameBytes(home, other, c) && PartOf(r, c)
    requires HomeEnd(result) <= r.home && OtherEnd(result) <= r.other
    ensures Sound(result + [r], home, other)
    ensures HomeEnd(result + [r]) == r.home + r.length && OtherEnd(result + [r]) == r.other + r.length
  {
    PartKeepsBytes(home, other, r, c);
    GrownInOrder(result, r, |home|, |other|);
  }

  lemma EndsBound(runs: seq<Run>, n: nat, m: nat, p: nat)
    requires InOrderRuns(runs, n, m) && p < |runs|
    ensures runs[p].home + runs[p].length <= HomeEnd(runs) && runs[p].other + runs[p].length <= OtherEnd(runs)
  {
    var last := |runs| - 1;
    if p < last {
      assert runs[p].home + runs[p].length <= runs[last].home;
    }
  }

  /** Up to where run p starts, nothing of the runs before it reaches. */
  lemma PrefixEnds(runs: seq<Run>, n: nat, m: nat, p: nat)
    requires InOrderRuns(runs, n, m) && p < |runs|
    ensures InOrderRuns(runs[..p], n, m)
    ensures HomeEnd(runs[..p]) <= runs[p].home && OtherEnd(runs[..p]) <= runs[p].other
  {
  }

  // ---- verify ----

  /** How many of the run's frames match before the first that doesn't. */
  function MatchLength(home: Track, other: Track, r: Run, from: nat): (n: nat)
    requires r.home + r.length <= |home| && r.other + r.length <= |other| && from <= r.length
    ensures from <= n <= r.length
    ensures forall i | r.home + from <= i < r.home + n :: home[i].bytes == other[i - r.home + r.other].bytes
    ensures n < r.length ==> home[r.home + n].bytes != other[r.other + n].bytes
    decreases r.length - from
  {
    if from < r.length && home[r.home + from].bytes == other[r.other + from].bytes
    then MatchLength(home, other, r, from + 1)
    else from
  }

  /** Each run cut at its first difference, and dropped when that is at once. */
  function Verified(runs: seq<Run>, home: Track, other: Track): (r: seq<Run>)
    requires forall c | c in runs :: c.home + c.length <= |home| && c.other + c.length <= |other|
    ensures |r| <= |runs|
  {
    if runs == [] then []
    else
      var last := runs[|runs| - 1];
      var length := MatchLength(home, other, last, 0);
      Verified(runs[..|runs| - 1], home, other) + if length > 0 then [last.(length := length)] else []
  }

  method Match(candidate: Run, home: Track, other: Track) returns (length: nat)
    requires candidate.home + candidate.length <= |home| && candidate.other + candidate.length <= |other|
    ensures length == MatchLength(home, other, candidate, 0)
  {
    length := 0;
    while length < candidate.length && home[candidate.home + length].bytes == other[candidate.other + length].bytes
      invariant length <= candidate.length
      invariant MatchLength(home, other, candidate, 0) == MatchLength(home, other, candidate, length)
    {
      length := length + 1;
    }
  }

  /** In place: the runs that pass move down over the ones that don't. */
  method Verify(runs: array<Run>, home: Track, other: Track) returns (n: nat)
    requires forall c | c in runs[..] :: c.home + c.length <= |home| && c.other + c.length <= |other|
    modifies runs
    ensures n <= runs.Length
    ensures runs[..n] == Verified(old(runs[..]), home, other)
  {
    hide *;
    ghost var before := runs[..];
    n := 0;
    NoneVerified(before, home, other);
    for i := 0 to runs.Length
      invariant n <= i
      invariant forall k | i <= k < runs.Length :: runs[k] == before[k]
      invariant runs[..n] == Verified(before[..i], home, other)
    {
      var candidate := runs[i];
      assert candidate == before[i];
      var length := Match(candidate, home, other);
      VerifiedStep(before, i, home, other);
      if length > 0 {
        ghost var kept := runs[..n];
        runs[n] := candidate.(length := length);
        n := n + 1;
        assert runs[..n] == kept + [candidate.(length := length)];
      }
    }
    assert before[..runs.Length] == before;
  }

  lemma NoneVerified(before: seq<Run>, home: Track, other: Track)
    ensures Verified(before[..0], home, other) == []
  {
  }

  lemma VerifiedStep(before: seq<Run>, i: nat, home: Track, other: Track)
    requires forall c | c in before :: c.home + c.length <= |home| && c.other + c.length <= |other|
    requires i < |before|
    ensures var length := MatchLength(home, other, before[i], 0);
            Verified(before[..i + 1], home, other)
            == Verified(before[..i], home, other) + if length > 0 then [before[i].(length := length)] else []
  {
    assert before[..i + 1][..i] == before[..i];
  }

  lemma VerifiedOne(result: seq<Run>, c: Run, home: Track, other: Track)
    requires Sound(result, home, other)
    requires c.home + c.length <= |home| && c.other + c.length <= |other|
    requires HomeEnd(result) <= c.home && OtherEnd(result) <= c.other
    ensures var length := MatchLength(home, other, c, 0);
            var more := result + if length > 0 then [c.(length := length)] else [];
            Sound(more, home, other) && HomeEnd(more) <= c.home + c.length && OtherEnd(more) <= c.other + c.length
  {
    hide Sound, SameBytes, MatchLength;
    var length := MatchLength(home, other, c, 0);
    if length > 0 {
      var part := c.(length := length);
      AppendPart(result, part, part, home, other);
    } else {
      assert result + [] == result;
    }
  }

  /** After the check every run is sound, whatever the hashes were. */
  lemma {:induction false} VerifiedIsSound(runs: seq<Run>, home: Track, other: Track)
    requires InOrderRuns(runs, |home|, |other|)
    ensures Sound(Verified(runs, home, other), home, other)
    ensures HomeEnd(Verified(runs, home, other)) <= HomeEnd(runs) && OtherEnd(Verified(runs, home, other)) <= OtherEnd(runs)
  {
    if runs != [] {
      var p := |runs| - 1;
      PrefixEnds(runs, |home|, |other|, p);
      VerifiedIsSound(runs[..p], home, other);
      VerifiedOne(Verified(runs[..p], home, other), runs[p], home, other);
    }
  }

  // ---- toSegmentBoundaries ----

  /** Either end of the file, or a frame whose data begins in itself: a splice point. */
  predicate Clean(frames: Track, i: nat)
    requires i <= |frames|
  {
    i == 0 || i == |frames| || frames[i].begin == 0
  }

  /** first is the first clean frame of [from, to), or to. */
  ghost predicate FirstClean(frames: Track, from: nat, to: nat, first: nat)
    requires from <= to <= |frames|
  {
    && from <= first <= to
    && (first < to ==> Clean(frames, first))
    && forall i | from <= i < first :: !Clean(frames, i)
  }

  /** last is the last clean frame of (low, to), or low. */
  ghost predicate LastClean(frames: Track, low: nat, to: nat, last: nat)
    requires low < to <= |frames|
  {
    && low <= last < to
    && (last > low ==> Clean(frames, last))
    && forall i | last < i < to :: !Clean(frames, i)
  }

  datatype Trimmed = Dropped | Kept(run: Run)

  /** The trim: back to the first and last splice points, except over a
      stretch of at least unanchored frames without one. */
  ghost predicate Trims(frames: Track, c: Run, unanchored: nat, first: nat, t: Trimmed)
    requires c.home + c.length <= |frames|
  {
    var end := c.home + c.length;
    && FirstClean(frames, c.home, end, first)
    && var start := if first - c.home >= unanchored then c.home else first;
       if start == end then t.Dropped?
       else if Clean(frames, end) then t == Kept(Run(start, c.other + (start - c.home), end - start))
       else exists last: nat | LastClean(frames, start, end, last) ::
         if end - last >= unanchored then t == Kept(Run(start, c.other + (start - c.home), end - start))
         else if last == start then t.Dropped?
         else t == Kept(Run(start, c.other + (start - c.home), last - start))
  }

  method ToSegmentBoundaries(candidate: Run, frames: Track, unanchored: nat) returns (t: Trimmed)
    requires candidate.home + candidate.length <= |frames|
    ensures exists first :: Trims(frames, candidate, unanchored, first, t)
    ensures t.Kept? ==> t.run.length > 0 && PartOf(t.run, candidate)
  {
    var start, end := candidate.home, candidate.home + candidate.length;
    var first := start;
    while first < end && !Clean(frames, first)
      invariant start <= first <= end
      invariant forall i | start <= i < first :: !Clean(frames, i)
    {
      first := first + 1;
    }
    ghost var boundary := first;
    if first - start >= unanchored {
      first := start;
    }
    if first == end {
      assert Trims(frames, candidate, unanchored, boundary, Dropped);
      return Dropped;
    }
    start := first;
    if !Clean(frames, end) {
      var last := end - 1;
      while last > start && !Clean(frames, last)
        invariant start <= last < end
        invariant forall i | last < i < end :: !Clean(frames, i)
      {
        last := last - 1;
      }
      assert LastClean(frames, start, end, last);
      if end - last >= unanchored {
      } else if last == start {
        assert Trims(frames, candidate, unanchored, boundary, Dropped);
        return Dropped;
      } else {
        end := last;
      }
    }
    t := Kept(Run(start, candidate.other + (start - candidate.home), end - start));
    assert Trims(frames, candidate, unanchored, boundary, t);
  }

  /** A run's edges after the trim: a splice point, or the run's own edge
      with no splice point in the unanchored frames next to it. */
  lemma TrimmedEdges(frames: Track, c: Run, unanchored: nat, first: nat, r: Run)
    requires c.home + c.length <= |frames| && unanchored > 0
    requires Trims(frames, c, unanchored, first, Kept(r))
    ensures PartOf(r, c) && r.length > 0
    ensures Clean(frames, r.home) || (r.home == c.home && c.home + unanchored <= |frames| && forall i | c.home <= i < c.home + unanchored :: !Clean(frames, i))
    ensures var end := r.home + r.length;
            Clean(frames, end) || (end == c.home + c.length && end - r.home >= unanchored && forall i | end - unanchored < i <= end :: !Clean(frames, i))
  {
    var end := c.home + c.length;
    var start := if first - c.home >= unanchored then c.home else first;
    if start == end || Clean(frames, end) {
      assert r == Run(start, c.other + (start - c.home), end - start);
    } else {
      var last: nat :| LastClean(frames, start, end, last) &&
        if end - last >= unanchored then Kept(r) == Kept(Run(start, c.other + (start - c.home), end - start))
        else last != start && Kept(r) == Kept(Run(start, c.other + (start - c.home), last - start));
      assert LastClean(frames, start, end, last);
      if end - last >= unanchored {
        assert r == Run(start, c.other + (start - c.home), end - start);
        assert forall i | end - unanchored < i < end :: !Clean(frames, i);
      } else {
        assert r == Run(start, c.other + (start - c.home), last - start);
      }
    }
  }

  /** What the trim takes off: fewer frames at either end than would count as
      show, and no splice point but the one it cuts at. A run that goes
      altogether has one at most. */
  lemma TrimsLittle(frames: Track, c: Run, unanchored: nat, first: nat, t: Trimmed)
    requires c.length > 0 && c.home + c.length <= |frames| && unanchored > 0 && Trims(frames, c, unanchored, first, t)
    ensures match t
            case Kept(r) =>
              && (forall i | c.home <= i < r.home :: !Clean(frames, i)) && r.home - c.home < unanchored
              && (forall i | r.home + r.length < i <= c.home + c.length :: !Clean(frames, i))
              && c.home + c.length - (r.home + r.length) < unanchored
            case Dropped =>
              && c.length < 2 * unanchored
              && forall i, j | c.home <= i < j <= c.home + c.length :: !(Clean(frames, i) && Clean(frames, j))
  {
    var end := c.home + c.length;
    var start := if first - c.home >= unanchored then c.home else first;
    if start != end && !Clean(frames, end) {
      var last: nat :| LastClean(frames, start, end, last) &&
        if end - last >= unanchored then t == Kept(Run(start, c.other + (start - c.home), end - start))
        else if last == start then t.Dropped?
        else t == Kept(Run(start, c.other + (start - c.home), last - start));
      assert LastClean(frames, start, end, last);
    }
  }

  /** The trim leaves a run only one way. */
  lemma TrimsUnique(frames: Track, c: Run, unanchored: nat, first: nat, t: Trimmed, other: nat, u: Trimmed)
    requires c.home + c.length <= |frames|
    requires Trims(frames, c, unanchored, first, t) && Trims(frames, c, unanchored, other, u)
    ensures t == u
  {
    var end := c.home + c.length;
    assert first == other;
    var start := if first - c.home >= unanchored then c.home else first;
    if start < end && !Clean(frames, end) {
      forall a: nat, b: nat | LastClean(frames, start, end, a) && LastClean(frames, start, end, b)
        ensures a == b
      {
      }
    }
  }
}
