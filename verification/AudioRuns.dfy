/** Comparing by audio, once the correlation has found its runs: the heaviest
    chain of runs in order, merged in place, the cuts between them, and the
    frames the cuts take. Times are in envelope steps of 10 ms. */
module AudioRuns {
  import opened Common
  import opened Reservoir
  import FrameDiff
  import Gaps

  /** length steps from home on match as many of the other download, offset later there. */
  datatype AudioRun = AudioRun(home: int, length: nat, offset: int) {
    function End(): int { home + length }
  }

  const SLACK: int := 500
  const COARSE_FACTOR: int := 10

  function HomeOf(r: AudioRun): int { r.home }

  /** after may come after before: in order in both downloads, give or take the slack. */
  predicate Follows(before: AudioRun, after: AudioRun) {
    after.home >= before.End() - SLACK && after.home + after.offset >= before.End() + before.offset - SLACK
  }

  /** Ten milliseconds a step: it begins at most five seconds before the other
      ends, in either download. */
  lemma FollowsMeans(before: AudioRun, after: AudioRun)
    ensures Follows(before, after) <==>
            && 10 * (before.home + before.length - after.home) <= 5000
            && 10 * ((before.home + before.length + before.offset) - (after.home + after.offset)) <= 5000
  {
  }

  /** Positions in s, in order, each following the one before. */
  ghost predicate Chained(s: seq<AudioRun>, picks: seq<nat>) {
    && (forall p | 0 <= p < |picks| :: picks[p] < |s|)
    && forall p | 0 < p < |picks| :: picks[p - 1] < picks[p] && Follows(s[picks[p - 1]], s[picks[p]])
  }

  function Weight(s: seq<AudioRun>, picks: seq<nat>): (w: nat)
    requires forall p | 0 <= p < |picks| :: picks[p] < |s|
  {
    if picks == [] then 0 else Weight(s, picks[..|picks| - 1]) + s[picks[|picks| - 1]].length
  }

  /** best[i] is the better of starting at i and going on from a run before it;
      previous[i] says which. */
  ghost predicate Best(s: seq<AudioRun>, best: seq<int>, previous: seq<int>, i: nat)
    requires i < |s| && i < |best| && i < |previous|
  {
    && best[i] >= s[i].length
    && (forall j | 0 <= j < i && Follows(s[j], s[i]) :: best[i] >= best[j] + s[i].length)
    && if previous[i] == -1 then best[i] == s[i].length
       else 0 <= previous[i] < i && Follows(s[previous[i]], s[i]) && best[i] == best[previous[i]] + s[i].length
  }

  ghost predicate Solved(s: seq<AudioRun>, best: seq<int>, previous: seq<int>) {
    |best| == |s| == |previous| && forall i | 0 <= i < |s| :: Best(s, best, previous, i)
  }

  /** No chain ending at a run weighs more than that run's best. */
  lemma {:induction false} NoHeavierChain(s: seq<AudioRun>, best: seq<int>, previous: seq<int>, picks: seq<nat>)
    requires Solved(s, best, previous) && Chained(s, picks) && picks != []
    ensures Weight(s, picks) <= best[picks[|picks| - 1]]
  {
    var n := |picks| - 1;
    var shorter := picks[..n];
    assert Best(s, best, previous, picks[n]);
    if n > 0 {
      NoHeavierChain(s, best, previous, shorter);
      assert shorter[n - 1] == picks[n - 1];
      assert Follows(s[picks[n - 1]], s[picks[n]]);
    } else {
      assert shorter == [];
    }
  }

  /** The chain the back pointers spell out. */
  function Path(previous: seq<int>, i: nat): (picks: seq<nat>)
    requires i < |previous|
    ensures picks != [] && picks[|picks| - 1] == i
  {
    if 0 <= previous[i] < i then Path(previous, previous[i]) + [i] else [i]
  }

  lemma LongerChain(s: seq<AudioRun>, picks: seq<nat>, i: nat)
    requires Chained(s, picks) && picks != [] && i < |s|
    requires picks[|picks| - 1] < i && Follows(s[picks[|picks| - 1]], s[i])
    ensures Chained(s, picks + [i])
  {
    hide Follows;
    var longer := picks + [i];
    forall p | 0 < p < |longer|
      ensures longer[p - 1] < longer[p] && Follows(s[longer[p - 1]], s[longer[p]])
    {
      assert longer[p - 1] == picks[p - 1] && longer[p] == if p < |picks| then picks[p] else i;
    }
  }

  lemma LongerPath(s: seq<AudioRun>, picks: seq<nat>, i: nat)
    requires Chained(s, picks) && picks != [] && i < |s|
    requires picks[|picks| - 1] < i && Follows(s[picks[|picks| - 1]], s[i])
    ensures Chained(s, picks + [i]) && Weight(s, picks + [i]) == Weight(s, picks) + s[i].length
  {
    LongerChain(s, picks, i);
    hide Follows, Chained;
    assert (picks + [i])[..|picks|] == picks;
  }

  lemma {:induction false} PathIsBest(s: seq<AudioRun>, best: seq<int>, previous: seq<int>, i: nat)
    requires Solved(s, best, previous) && i < |s|
    ensures Chained(s, Path(previous, i)) && Weight(s, Path(previous, i)) == best[i]
  {
    assert Best(s, best, previous, i);
    hide Follows;
    if previous[i] == -1 {
      assert [i][..0] == [];
    } else {
      PathIsBest(s, best, previous, previous[i]);
      hide Solved, Best;
      assert Path(previous, i) == Path(previous, previous[i]) + [i];
      hide Path;
      LongerPath(s, Path(previous, previous[i]), i);
    }
  }

  lemma BestStays(s: seq<AudioRun>, best: seq<int>, previous: seq<int>, b: int, from: int, k: nat)
    requires k < |best| == |previous| && k < |s| && Best(s, best, previous, k)
    ensures Best(s, best + [b], previous + [from], k)
  {
    forall j | 0 <= j < k && Follows(s[j], s[k])
      ensures (best + [b])[k] >= (best + [b])[j] + s[k].length
    {
      assert best[k] >= best[j] + s[k].length;
    }
  }

  /** The dynamic program, over the runs in home order. */
  method Solve(s: seq<AudioRun>) returns (best: seq<int>, previous: seq<int>)
    ensures Solved(s, best, previous)
  {
    best, previous := [], [];
    for i := 0 to |s|
      invariant |best| == |previous| == i
      invariant forall k | 0 <= k < i :: Best(s, best, previous, k)
    {
      var b, from := s[i].length, -1;
      for j := 0 to i
        invariant b >= s[i].length
        invariant forall k | 0 <= k < j && Follows(s[k], s[i]) :: b >= best[k] + s[i].length
        invariant if from == -1 then b == s[i].length
                  else 0 <= from < i && Follows(s[from], s[i]) && b == best[from] + s[i].length
      {
        if Follows(s[j], s[i]) && best[j] + s[i].length > b {
          b, from := best[j] + s[i].length, j;
        }
      }
      forall k | 0 <= k < i
        ensures Best(s, best + [b], previous + [from], k)
      {
        BestStays(s, best, previous, b, from, k);
      }
      best, previous := best + [b], previous + [from];
      assert Best(s, best, previous, i);
    }
  }

  // ---- merging, in place ----

  function Abs(x: int): int { if x < 0 then -x else x }

  /** r joined to the run before it, or added after it. */
  function Join(merged: seq<AudioRun>, r: AudioRun): (m: seq<AudioRun>)
    requires merged != []
    ensures m != []
  {
    var k := |merged| - 1;
    if Abs(r.offset - merged[k].offset) <= COARSE_FACTOR
    then merged[k := merged[k].(length := Max(merged[k].End(), r.End()) - merged[k].home)]
    else merged + [r]
  }

  function Merged(chain: seq<AudioRun>): (m: seq<AudioRun>)
    requires chain != []
    ensures m != []
  {
    if |chain| == 1 then chain else Join(Merged(chain[..|chain| - 1]), chain[|chain| - 1])
  }

  /** Run i joins the merged runs before it, in the array they share. */
  method JoinInPlace(chain: array<AudioRun>, n: nat, i: nat) returns (m: nat)
    requires 1 <= n <= i < chain.Length
    modifies chain
    ensures n <= m <= n + 1
    ensures chain[..m] == Join(old(chain[..n]), old(chain[i]))
    ensures chain[i + 1..] == old(chain[i + 1..])
  {
    hide Abs;
    var r := chain[i];
    ghost var merged := chain[..n];
    if Abs(r.offset - chain[n - 1].offset) <= COARSE_FACTOR {
      chain[n - 1] := chain[n - 1].(length := Max(chain[n - 1].End(), r.End()) - chain[n - 1].home);
      m := n;
      assert chain[..m] == Join(merged, r);
    } else {
      chain[n] := r;
      m := n + 1;
      assert chain[..m] == merged + [r];
    }
  }

  /** The merged runs take the place of the chain's; one not yet read is never
      written over. */
  method MergeInPlace(chain: array<AudioRun>) returns (n: nat)
    requires chain.Length > 0
    modifies chain
    ensures 1 <= n <= chain.Length
    ensures chain[..n] == Merged(old(chain[..]))
  {
    ghost var before := chain[..];
    n := 1;
    assert chain[..1] == before[..1] == Merged(before[..1]);
    hide Join, Merged;
    for i := 1 to chain.Length
      invariant 1 <= n <= i
      invariant chain[i..] == before[i..]
      invariant chain[..n] == Merged(before[..i])
    {
      assert chain[i] == chain[i..][0] == before[i];
      assert chain[i + 1..] == chain[i..][1..] == before[i + 1..];
      MergedStep(before, i);
      n := JoinInPlace(chain, n, i);
    }
    assert before[..chain.Length] == before;
  }

  lemma MergedStep(before: seq<AudioRun>, i: nat)
    requires 1 <= i < |before|
    ensures Merged(before[..i + 1]) == Join(Merged(before[..i]), before[i])
  {
    assert before[..i + 1][..i] == before[..i];
  }

  /** m holds all of r. */
  predicate Holds(m: AudioRun, r: AudioRun) {
    m.home <= r.home && r.End() <= m.End()
  }

  ghost predicate KeepsCovered(chain: seq<AudioRun>, merged: seq<AudioRun>) {
    forall r | r in chain :: exists m | m in merged :: Holds(m, r)
  }

  ghost predicate KeepsStarts(chain: seq<AudioRun>, merged: seq<AudioRun>) {
    forall m | m in merged :: exists r | r in chain :: r.home == m.home && r.offset == m.offset
  }

  ghost predicate KeepsEnds(chain: seq<AudioRun>, merged: seq<AudioRun>) {
    forall m | m in merged :: exists r | r in chain :: r.End() == m.End()
  }

  ghost predicate Apart(merged: seq<AudioRun>) {
    forall k | 0 < k < |merged| :: Abs(merged[k].offset - merged[k - 1].offset) > COARSE_FACTOR
  }

  /** Merging keeps every run covered, starts each merged run where a run
      starts and ends it where one ends, and leaves neighbours at different
      offsets. */
  ghost predicate MergesWell(chain: seq<AudioRun>, merged: seq<AudioRun>) {
    KeepsCovered(chain, merged) && KeepsStarts(chain, merged) && KeepsEnds(chain, merged) && Apart(merged)
  }

  lemma JoinCovers(chain: seq<AudioRun>, merged: seq<AudioRun>, r: AudioRun)
    requires merged != [] && KeepsCovered(chain, merged) && merged[|merged| - 1].home <= r.home
    ensures KeepsCovered(chain + [r], Join(merged, r))
  {
    var joined := Join(merged, r);
    assert joined[|joined| - 1] in joined && Holds(joined[|joined| - 1], r);
    forall x | x in chain
      ensures exists m | m in joined :: Holds(m, x)
    {
      var m :| m in merged && Holds(m, x);
      var p :| 0 <= p < |merged| && merged[p] == m;
      assert joined[p] in joined && Holds(joined[p], x);
    }
  }

  lemma JoinStarts(chain: seq<AudioRun>, merged: seq<AudioRun>, r: AudioRun)
    requires merged != [] && KeepsStarts(chain, merged)
    ensures KeepsStarts(chain + [r], Join(merged, r))
  {
    var joined, all := Join(merged, r), chain + [r];
    assert r in all;
    forall m | m in joined
      ensures exists x | x in all :: x.home == m.home && x.offset == m.offset
    {
      var p :| 0 <= p < |joined| && joined[p] == m;
      if p < |merged| {
        assert merged[p] in merged;
        var x :| x in chain && x.home == merged[p].home && x.offset == merged[p].offset;
        assert x in all;
      }
    }
  }

  lemma JoinEnds(chain: seq<AudioRun>, merged: seq<AudioRun>, r: AudioRun)
    requires merged != [] && KeepsEnds(chain, merged)
    ensures KeepsEnds(chain + [r], Join(merged, r))
  {
    var joined, all := Join(merged, r), chain + [r];
    assert r in all;
    forall m | m in joined
      ensures exists x | x in all :: x.End() == m.End()
    {
      var p :| 0 <= p < |joined| && joined[p] == m;
      if p < |merged| {
        assert merged[p] in merged;
        var x :| x in chain && x.End() == merged[p].End();
        assert x in all;
        assert m.End() == merged[p].End() || m.End() == r.End();
      }
    }
  }

  lemma JoinApart(merged: seq<AudioRun>, r: AudioRun)
    requires merged != [] && Apart(merged)
    ensures Apart(Join(merged, r))
  {
    var joined := Join(merged, r);
    forall k | 0 < k < |joined|
      ensures Abs(joined[k].offset - joined[k - 1].offset) > COARSE_FACTOR
    {
      if k < |merged| {
        assert joined[k].offset == merged[k].offset && joined[k - 1].offset == merged[k - 1].offset;
      }
    }
  }

  lemma OneMergesWell(chain: seq<AudioRun>)
    requires |chain| == 1
    ensures MergesWell(chain, chain)
  {
    assert Holds(chain[0], chain[0]);
  }

  lemma JoinLast(merged: seq<AudioRun>, r: AudioRun)
    requires merged != [] && merged[|merged| - 1].home <= r.home
    ensures Join(merged, r)[|Join(merged, r)| - 1].home <= r.home
  {
  }

  lemma JoinMergesWell(chain: seq<AudioRun>, merged: seq<AudioRun>, r: AudioRun)
    requires merged != [] && MergesWell(chain, merged) && merged[|merged| - 1].home <= r.home
    ensures MergesWell(chain + [r], Join(merged, r))
    ensures Join(merged, r)[|Join(merged, r)| - 1].home <= r.home
  {
    hide Join, KeepsCovered, KeepsStarts, KeepsEnds, Apart;
    JoinCovers(chain, merged, r);
    JoinStarts(chain, merged, r);
    JoinEnds(chain, merged, r);
    JoinApart(merged, r);
    JoinLast(merged, r);
  }

  lemma {:induction false} MergeKeepsRuns(chain: seq<AudioRun>)
    requires chain != [] && SortedBy(chain, HomeOf)
    ensures MergesWell(chain, Merged(chain))
    ensures Merged(chain)[|Merged(chain)| - 1].home <= chain[|chain| - 1].home
  {
    hide MergesWell, Join;
    var n := |chain| - 1;
    if n == 0 {
      OneMergesWell(chain);
    } else {
      MergeKeepsRuns(chain[..n]);
      assert HomeOf(chain[n - 1]) <= HomeOf(chain[n]);
      JoinMergesWell(chain[..n], Merged(chain[..n]), chain[n]);
      assert chain == chain[..n] + [chain[n]];
    }
  }

  // ---- the whole of it ----

  /** The runs picked. */
  function Chosen(s: seq<AudioRun>, picks: seq<nat>): (chain: seq<AudioRun>)
    requires forall p | 0 <= p < |picks| :: picks[p] < |s|
    ensures |chain| == |picks|
    ensures forall p | 0 <= p < |picks| :: chain[p] == s[picks[p]]
  {
    seq(|picks|, p requires 0 <= p < |picks| => s[picks[p]])
  }

  /** s is the runs by home, and no chain in it has more audio than picks. */
  ghost predicate Heaviest(runs: seq<AudioRun>, s: seq<AudioRun>, picks: seq<nat>) {
    && multiset(s) == multiset(runs) && SortedBy(s, HomeOf)
    && picks != [] && Chained(s, picks)
    && forall others: seq<nat> | Chained(s, others) :: Weight(s, others) <= Weight(s, picks)
  }

  lemma {:induction false} PicksIncrease(s: seq<AudioRun>, picks: seq<nat>, p: nat, q: nat)
    requires Chained(s, picks) && p < q < |picks|
    ensures picks[p] < picks[q]
  {
    if p + 1 < q {
      PicksIncrease(s, picks, p, q - 1);
    }
  }

  lemma ChosenSorted(s: seq<AudioRun>, picks: seq<nat>)
    requires Chained(s, picks) && SortedBy(s, HomeOf)
    ensures SortedBy(Chosen(s, picks), HomeOf)
  {
    forall p, q | 0 <= p < q < |picks|
      ensures HomeOf(Chosen(s, picks)[p]) <= HomeOf(Chosen(s, picks)[q])
    {
      PicksIncrease(s, picks, p, q);
    }
  }

  /** The last run of a heaviest chain: the first with the greatest best. */
  method Last(best: seq<int>) returns (last: nat)
    requires best != []
    ensures last < |best| && forall i | 0 <= i < |best| :: best[i] <= best[last]
  {
    last := 0;
    for i := 0 to |best|
      invariant last < |best|
      invariant forall k | 0 <= k < i :: best[k] <= best[last]
    {
      if best[i] > best[last] {
        last := i;
      }
    }
  }

  lemma PathIsHeaviest(s: seq<AudioRun>, best: seq<int>, previous: seq<int>, last: nat)
    requires Solved(s, best, previous) && last < |s| && SortedBy(s, HomeOf)
    requires forall i | 0 <= i < |best| :: best[i] <= best[last]
    ensures Heaviest(s, s, Path(previous, last))
  {
    PathIsBest(s, best, previous, last);
    forall others: seq<nat> | Chained(s, others)
      ensures Weight(s, others) <= Weight(s, Path(previous, last))
    {
      if others != [] {
        NoHeavierChain(s, best, previous, others);
      }
    }
  }

  /** Following the back pointers from the last run. */
  method Follow(previous: seq<int>, last: nat) returns (picks: seq<nat>)
    requires last < |previous|
    requires forall i | 0 <= i < |previous| :: -1 <= previous[i] < i
    ensures picks == Path(previous, last)
  {
    picks := [];
    var i: int := last;
    while i >= 0
      invariant -1 <= i < |previous|
      invariant Path(previous, last) == (if i >= 0 then Path(previous, i) else []) + picks
    {
      ghost var front := if previous[i] >= 0 then Path(previous, previous[i]) else [];
      assert Path(previous, i) == front + [i];
      hide Path;
      assert front + [i] + picks == front + ([i] + picks);
      picks := [i] + picks;
      i := previous[i];
    }
  }

  lemma SolvedPointsBack(s: seq<AudioRun>, best: seq<int>, previous: seq<int>)
    requires Solved(s, best, previous)
    ensures forall i | 0 <= i < |previous| :: -1 <= previous[i] < i
  {
    forall i | 0 <= i < |previous|
      ensures -1 <= previous[i] < i
    {
      assert Best(s, best, previous, i);
    }
  }

  /** Sorting, solving, following back and merging: a heaviest chain, merged. */
  method InOrderRuns(runs: seq<AudioRun>) returns (merged: seq<AudioRun>, ghost s: seq<AudioRun>, ghost picks: seq<nat>)
    ensures runs == [] ==> merged == []
    ensures runs != [] ==> Heaviest(runs, s, picks)
    ensures runs != [] ==> merged == Merged(Chosen(s, picks)) && MergesWell(Chosen(s, picks), merged)
  {
    merged, s, picks := [], [], [];
    if runs == [] {
      return;
    }
    var sorted := Sort(runs, HomeOf);
    assert |sorted| == |runs| by { SameElements(sorted, runs); }
    var best, previous := Solve(sorted);
    var last := Last(best);
    SolvedPointsBack(sorted, best, previous);
    var positions := Follow(previous, last);
    PathIsHeaviest(sorted, best, previous, last);
    s, picks := sorted, positions;
    var chosen := Chosen(sorted, positions);
    var chain := new AudioRun[|chosen|](p requires 0 <= p < |chosen| => chosen[p]);
    assert chain[..] == chosen;
    var n := MergeInPlace(chain);
    ChosenSorted(sorted, positions);
    MergeKeepsRuns(chosen);
    merged := chain[..n];
  }

  // ---- what is cut ----

  const MIN_BREAK: nat := 500
  const LINE_UP_SLACK: int := 100

  /** What the runs cover of the home download. */
  function Homes(runs: seq<AudioRun>): (spans: Gaps.Spans)
    ensures |spans| == |runs|
  {
    seq(|runs|, i requires 0 <= i < |runs| => (runs[i].home, runs[i].End()))
  }

  /** How far the first i runs reach there. */
  function Reach(runs: seq<AudioRun>, i: nat): (end: nat)
    requires i <= |runs|
    ensures forall k | 0 <= k < i :: runs[k].End() <= end
  {
    if i == 0 then 0 else Max(Reach(runs, i - 1), runs[i - 1].End())
  }

  /** Where the stretch before run i ends; the last one ends the download. */
  function StretchEnd(runs: seq<AudioRun>, i: nat, size: nat): int {
    if i < |runs| then runs[i].home else size
  }

  ghost predicate IsStretch(runs: seq<AudioRun>, size: nat, i: nat, cut: (nat, nat)) {
    i <= |runs| && cut.0 == Reach(runs, i) && cut.1 == StretchEnd(runs, i, size) && cut.1 - cut.0 >= MIN_BREAK
  }

  /** cuts are the stretches long enough before the first i runs. */
  ghost predicate CutsUpTo(cuts: seq<(nat, nat)>, runs: seq<AudioRun>, size: nat, i: nat) {
    && (forall c | c in cuts :: exists k | 0 <= k < i :: IsStretch(runs, size, k, c))
    && (forall k, c | 0 <= k < i && IsStretch(runs, size, k, c) :: c in cuts)
  }

  ghost predicate CutsOrdered(cuts: seq<(nat, nat)>) {
    && (forall c | c in cuts :: c.0 + MIN_BREAK <= c.1)
    && forall k | 0 < k < |cuts| :: cuts[k - 1].1 <= cuts[k].0
  }

  predicate InCuts(cuts: seq<(nat, nat)>, step: int) {
    exists c | c in cuts :: c.0 <= step < c.1
  }

  /** What lies between run i and the one before it in the other download. */
  function OtherGap(runs: seq<AudioRun>, i: nat): int
    requires i < |runs|
  {
    runs[i].home + runs[i].offset - (if i == 0 then 0 else runs[i - 1].End() + runs[i - 1].offset)
  }

  /** What the runs match of the other download. */
  function Others(runs: seq<AudioRun>): (spans: Gaps.Spans)
    ensures |spans| == |runs|
  {
    seq(|runs|, i requires 0 <= i < |runs| => (runs[i].home + runs[i].offset, runs[i].End() + runs[i].offset))
  }

  /** The other download's own stretches, long enough to be ads: how long they
      last together, and how many they are. */
  function Own(runs: seq<AudioRun>, otherSize: nat): (nat, nat) {
    Gaps.LongGaps(Others(runs), |runs| + 1, otherSize, 1, MIN_BREAK)
  }

  lemma OwnStep(runs: seq<AudioRun>, otherSize: nat, i: nat)
    requires i <= |runs|
    ensures var gap := GapBefore(runs, otherSize, i);
            var before, after := Gaps.LongGaps(Others(runs), i, otherSize, 1, MIN_BREAK), Gaps.LongGaps(Others(runs), i + 1, otherSize, 1, MIN_BREAK);
            after == if gap >= MIN_BREAK then (before.0 + gap, before.1 + 1) else before
  {
  }

  /** The runs are in order in the other download, give or take the slack. */
  ghost predicate LinesUp(runs: seq<AudioRun>, n: nat)
    requires n <= |runs|
  {
    forall i | 0 < i < n :: OtherGap(runs, i) >= -LINE_UP_SLACK
  }

  /** In the other download, no run begins more than a second before the one
      before it ends. */
  lemma LinesUpMeans(runs: seq<AudioRun>)
    ensures LinesUp(runs, |runs|) <==> forall i | 0 < i < |runs| ::
              10 * ((runs[i - 1].home + runs[i - 1].length + runs[i - 1].offset) - (runs[i].home + runs[i].offset)) <= 1000
  {
    forall i | 0 < i < |runs|
      ensures OtherGap(runs, i) >= -LINE_UP_SLACK <==>
              10 * ((runs[i - 1].home + runs[i - 1].length + runs[i - 1].offset) - (runs[i].home + runs[i].offset)) <= 1000
    {
    }
  }

  lemma StretchAdded(cuts: seq<(nat, nat)>, runs: seq<AudioRun>, size: nat, i: nat)
    requires i <= |runs| && CutsUpTo(cuts, runs, size, i)
    ensures StretchEnd(runs, i, size) - Reach(runs, i) < MIN_BREAK ==> CutsUpTo(cuts, runs, size, i + 1)
    ensures StretchEnd(runs, i, size) - Reach(runs, i) >= MIN_BREAK ==>
              CutsUpTo(cuts + [(Reach(runs, i), StretchEnd(runs, i, size))], runs, size, i + 1)
  {
    hide Reach, StretchEnd;
    if StretchEnd(runs, i, size) - Reach(runs, i) >= MIN_BREAK {
      var c: (nat, nat) := (Reach(runs, i), StretchEnd(runs, i, size));
      assert IsStretch(runs, size, i, c);
      assert forall x | x in cuts + [c] :: x in cuts || x == c;
    }
  }

  lemma LinesUpStep(runs: seq<AudioRun>, i: nat)
    requires i < |runs| && LinesUp(runs, i)
    ensures i > 0 && OtherGap(runs, i) < -LINE_UP_SLACK ==> !LinesUp(runs, |runs|)
    ensures i == 0 || OtherGap(runs, i) >= -LINE_UP_SLACK ==> LinesUp(runs, i + 1)
  {
  }

  lemma ReachStep(runs: seq<AudioRun>, i: nat)
    requires i < |runs|
    ensures Reach(runs, i + 1) == Max(Reach(runs, i), runs[i].End())
  {
  }

  ghost predicate CutSoFar(cuts: seq<(nat, nat)>, runs: seq<AudioRun>, size: nat, i: nat, reach: int) {
    CutsUpTo(cuts, runs, size, i) && CutsOrdered(cuts) && (cuts != [] ==> cuts[|cuts| - 1].1 <= reach)
  }

  lemma CutSoFarWider(cuts: seq<(nat, nat)>, runs: seq<AudioRun>, size: nat, i: nat, reach: int, wider: int)
    requires CutSoFar(cuts, runs, size, i, reach) && reach <= wider
    ensures CutSoFar(cuts, runs, size, i, wider)
  {
    hide CutsUpTo, CutsOrdered;
  }

  /** The stretch before run i is cut if it is long enough. */
  method AddCut(cuts: seq<(nat, nat)>, ghost runs: seq<AudioRun>, ghost size: nat, ghost i: nat, from: nat, to: int)
      returns (more: seq<(nat, nat)>)
    requires i <= |runs| && from == Reach(runs, i) && to == StretchEnd(runs, i, size)
    requires CutSoFar(cuts, runs, size, i, from)
    ensures CutSoFar(more, runs, size, i + 1, Max(from, to))
  {
    hide Reach, StretchEnd, CutsUpTo;
    more := cuts;
    StretchAdded(cuts, runs, size, i);
    if to - from >= MIN_BREAK {
      more := cuts + [(from, to)];
    }
  }

  ghost predicate CountedSoFar(runs: seq<AudioRun>, otherSize: nat, i: nat, extra: nat, breaks: nat) {
    i <= |runs| + 1 && (extra, breaks) == Gaps.LongGaps(Others(runs), i, otherSize, 1, MIN_BREAK)
  }

  /** What lies before run i in the other download, or after the last. */
  function GapBefore(runs: seq<AudioRun>, otherSize: nat, i: nat): int
    requires i <= |runs|
  {
    if i < |runs| then OtherGap(runs, i) else otherSize - OtherReach(runs, i)
  }

  function OtherReach(runs: seq<AudioRun>, i: nat): int
    requires i <= |runs|
  {
    if i == 0 then 0 else runs[i - 1].End() + runs[i - 1].offset
  }

  method CountGap(ghost runs: seq<AudioRun>, ghost otherSize: nat, ghost i: nat, gap: int, extra: nat, breaks: nat)
      returns (extraMore: nat, breaksMore: nat)
    requires i <= |runs| && CountedSoFar(runs, otherSize, i, extra, breaks) && gap == GapBefore(runs, otherSize, i)
    ensures CountedSoFar(runs, otherSize, i + 1, extraMore, breaksMore)
  {
    OwnStep(runs, otherSize, i);
    hide Gaps.LongGaps, Others;
    extraMore, breaksMore := extra, breaks;
    if gap >= MIN_BREAK {
      extraMore, breaksMore := extra + gap, breaks + 1;
    }
  }

  /** The cut list, from the matched runs; lined is whether the other download
      has them in order. */
  method Cuts(runs: seq<AudioRun>, size: nat, otherSize: nat)
      returns (lined: bool, cuts: seq<(nat, nat)>, breaks: nat, extra: nat)
    ensures lined <==> LinesUp(runs, |runs|)
    ensures lined ==> CutsOrdered(cuts) && CutsUpTo(cuts, runs, size, |runs| + 1)
    ensures lined ==> (extra, breaks) == Own(runs, otherSize)
  {
    cuts, breaks, extra := [], 0, 0;
    var previousEnd: nat, previousOtherEnd := 0, 0;
    for i := 0 to |runs|
      invariant LinesUp(runs, i)
      invariant previousEnd == Reach(runs, i)
      invariant previousOtherEnd == OtherReach(runs, i)
      invariant CutSoFar(cuts, runs, size, i, previousEnd)
      invariant CountedSoFar(runs, otherSize, i, extra, breaks)
    {
      hide CutSoFar, CountedSoFar, LinesUp, Reach;
      LinesUpStep(runs, i);
      ReachStep(runs, i);
      cuts := AddCut(cuts, runs, size, i, previousEnd, runs[i].home);
      CutSoFarWider(cuts, runs, size, i + 1, Max(previousEnd, runs[i].home), Max(previousEnd, runs[i].End()));
      var gap := runs[i].home + runs[i].offset - previousOtherEnd;
      if i > 0 && gap < -LINE_UP_SLACK {
        lined := false;
        return;
      }
      extra, breaks := CountGap(runs, otherSize, i, gap, extra, breaks);
      previousEnd, previousOtherEnd := Max(previousEnd, runs[i].End()), runs[i].End() + runs[i].offset;
    }
    hide CutsUpTo, CutsOrdered, Gaps.LongGaps, Others, LinesUp, Reach;
    cuts := AddCut(cuts, runs, size, |runs|, previousEnd, size);
    extra, breaks := CountGap(runs, otherSize, |runs|, otherSize - previousOtherEnd, extra, breaks);
    lined := true;
  }

  // ---- frames ----

  const STEP: nat := 10_000_000

  /** The frame's middle falls in a cut. Times are in nanoseconds. */
  predicate IsCut(durations: seq<nat>, cuts: seq<(nat, nat)>, i: nat)
    requires i < |durations|
  {
    InCuts(cuts, (FrameDiff.Span(durations, 0, i) + durations[i] / 2) / STEP)
  }

  /** The instant halfway through the frame lies between where a cut begins and
      where it ends, at ten milliseconds a step. */
  lemma MiddleIsIn(durations: seq<nat>, cuts: seq<(nat, nat)>, i: nat)
    requires i < |durations|
    ensures var middle := FrameDiff.Span(durations, 0, i) + durations[i] / 2;
            IsCut(durations, cuts, i) <==> exists c | c in cuts :: c.0 * 10_000_000 <= middle < c.1 * 10_000_000
  {
    var middle := FrameDiff.Span(durations, 0, i) + durations[i] / 2;
    hide FrameDiff.Span;
    assert forall n: nat :: n <= middle / STEP <==> n * 10_000_000 <= middle;
  }

  /** All of the segments' frames are cut, or none. */
  ghost predicate AllCut(segments: seq<Segment>, durations: seq<nat>, cuts: seq<(nat, nat)>, cut: bool) {
    forall k | 0 <= k < |segments| ::
      && segments[k].end <= |durations|
      && forall i | segments[k].start <= i < segments[k].end :: IsCut(durations, cuts, i) == cut
  }

  ghost predicate Sorted(kept: seq<Segment>, removed: seq<Segment>, tiles: seq<Segment>, durations: seq<nat>, cuts: seq<(nat, nat)>, to: nat) {
    && to <= |durations| && FrameDiff.Partition(kept, removed, tiles, durations, to)
    && AllCut(kept, durations, cuts, false) && AllCut(removed, durations, cuts, true)
  }

  ghost predicate Current(s: Segment, durations: seq<nat>, cuts: seq<(nat, nat)>, cut: bool) {
    && s.start < s.end <= |durations| && s.duration == FrameDiff.Span(durations, s.start, s.end)
    && forall i | s.start <= i < s.end :: IsCut(durations, cuts, i) == cut
  }

  lemma AllCutMore(segments: seq<Segment>, durations: seq<nat>, cuts: seq<(nat, nat)>, s: Segment, cut: bool)
    requires AllCut(segments, durations, cuts, cut) && Current(s, durations, cuts, cut)
    ensures AllCut(segments + [s], durations, cuts, cut)
  {
    hide IsCut, FrameDiff.Span;
    var more := segments + [s];
    forall k | 0 <= k < |more|
      ensures more[k].end <= |durations|
      ensures forall i | more[k].start <= i < more[k].end :: IsCut(durations, cuts, i) == cut
    {
      assert more[k] == if k < |segments| then segments[k] else s;
    }
  }

  /** The segment under way joins the list it belongs to. */
  method Close(kept: seq<Segment>, removed: seq<Segment>, ghost tiles: seq<Segment>, durations: seq<nat>, cuts: seq<(nat, nat)>,
               current: Segment, cut: bool)
      returns (keptMore: seq<Segment>, removedMore: seq<Segment>, ghost tilesMore: seq<Segment>)
    requires Sorted(kept, removed, tiles, durations, cuts, current.start) && Current(current, durations, cuts, cut)
    ensures keptMore == if cut then kept else kept + [current]
    ensures removedMore == if cut then removed + [current] else removed
    ensures Sorted(keptMore, removedMore, tilesMore, durations, cuts, current.end)
  {
    hide IsCut, FrameDiff.Partition, FrameDiff.Span, AllCut;
    keptMore, removedMore, tilesMore := kept, removed, tiles + [current];
    assert current == Segment(current.start, current.end, FrameDiff.Span(durations, current.start, current.end));
    AllCutMore(if cut then removed else kept, durations, cuts, current, cut);
    if cut {
      FrameDiff.PartitionSwaps(kept, removed, tiles, durations, current.start);
      FrameDiff.PartitionMore(removed, kept, tiles, durations, current.start, current.end);
      removedMore := removed + [current];
      FrameDiff.PartitionSwaps(removedMore, kept, tilesMore, durations, current.end);
    } else {
      FrameDiff.PartitionMore(kept, removed, tiles, durations, current.start, current.end);
      keptMore := kept + [current];
    }
  }

  lemma CurrentGrows(s: Segment, durations: seq<nat>, cuts: seq<(nat, nat)>, cut: bool)
    requires s.end < |durations| && IsCut(durations, cuts, s.end) == cut
    requires s.start == s.end ==> s.duration == 0
    requires s.start < s.end ==> Current(s, durations, cuts, cut)
    requires s.start <= s.end
    ensures Current(Segment(s.start, s.end + 1, s.duration + durations[s.end]), durations, cuts, cut)
  {
    hide IsCut;
    assert FrameDiff.Span(durations, s.start, s.end + 1) == FrameDiff.Span(durations, s.start, s.end) + durations[s.end];
    forall i | s.start <= i < s.end + 1
      ensures IsCut(durations, cuts, i) == cut
    {
    }
  }

  /** Kept and removed segments together are tiles of the whole file, and no
      segment holds frames of both kinds. */
  ghost predicate SortsAll(kept: seq<Segment>, removed: seq<Segment>, durations: seq<nat>, cuts: seq<(nat, nat)>) {
    exists tiles: seq<Segment> :: Sorted(kept, removed, tiles, durations, cuts, |durations|)
  }

  /** What there is after the first i frames: closed segments, and one under way. */
  ghost predicate UpTo(kept: seq<Segment>, removed: seq<Segment>, tiles: seq<Segment>, durations: seq<nat>, cuts: seq<(nat, nat)>,
                       current: Segment, cut: bool, i: nat) {
    current.end == i && Current(current, durations, cuts, cut) && Sorted(kept, removed, tiles, durations, cuts, current.start)
  }

  /** The next frame joins the segment under way, or starts another. */
  method NextFrame(kept: seq<Segment>, removed: seq<Segment>, ghost tiles: seq<Segment>, durations: seq<nat>, cuts: seq<(nat, nat)>,
                   current: Option<Segment>, cut: bool, at: nat, i: nat)
      returns (keptMore: seq<Segment>, removedMore: seq<Segment>, ghost tilesMore: seq<Segment>, next: Segment, isCut: bool)
    requires i < |durations| && at == FrameDiff.Span(durations, 0, i)
    requires current.None? ==> Sorted(kept, removed, tiles, durations, cuts, i)
    requires current.Some? ==> UpTo(kept, removed, tiles, durations, cuts, current.value, cut, i)
    ensures UpTo(keptMore, removedMore, tilesMore, durations, cuts, next, isCut, i + 1)
  {
    hide Sorted, Current, InCuts, FrameDiff.Span;
    keptMore, removedMore, tilesMore := kept, removed, tiles;
    isCut := InCuts(cuts, (at + durations[i] / 2) / STEP);
    assert isCut == IsCut(durations, cuts, i);
    var under := Segment(i, i, 0);
    if current.Some? {
      UnderWay(kept, removed, tiles, durations, cuts, current.value, cut, i);
      if isCut != cut {
        keptMore, removedMore, tilesMore := Close(kept, removed, tiles, durations, cuts, current.value, cut);
      } else {
        under := current.value;
      }
    }
    CurrentGrows(under, durations, cuts, isCut);
    next := Segment(under.start, i + 1, under.duration + durations[i]);
  }

  method FrameSegments(durations: seq<nat>, cuts: seq<(nat, nat)>) returns (kept: seq<Segment>, removed: seq<Segment>)
    ensures SortsAll(kept, removed, durations, cuts)
  {
    kept, removed := [], [];
    ghost var tiles := [];
    var at: nat := 0;
    var current: Option<Segment> := None;
    var currentCut := false;
    assert Sorted(kept, removed, tiles, durations, cuts, 0);
    hide Sorted, UpTo;
    for i := 0 to |durations|
      invariant at == FrameDiff.Span(durations, 0, i)
      invariant current.None? ==> i == 0 && Sorted(kept, removed, tiles, durations, cuts, i)
      invariant current.Some? ==> UpTo(kept, removed, tiles, durations, cuts, current.value, currentCut, i)
    {
      var next;
      kept, removed, tiles, next, currentCut := NextFrame(kept, removed, tiles, durations, cuts, current, currentCut, at, i);
      current := Some(next);
      at := at + durations[i];
    }
    if current.Some? {
      UnderWay(kept, removed, tiles, durations, cuts, current.value, currentCut, |durations|);
      kept, removed, tiles := Close(kept, removed, tiles, durations, cuts, current.value, currentCut);
    }
  }

  lemma UnderWay(kept: seq<Segment>, removed: seq<Segment>, tiles: seq<Segment>, durations: seq<nat>, cuts: seq<(nat, nat)>,
                 current: Segment, cut: bool, i: nat)
    requires UpTo(kept, removed, tiles, durations, cuts, current, cut, i)
    ensures current.start < current.end == i && Current(current, durations, cuts, cut)
    ensures Sorted(kept, removed, tiles, durations, cuts, current.start)
  {
    hide Sorted, IsCut;
  }

  /** A frame is removed exactly when its middle falls in a cut, and kept
      exactly when it does not; the segments play what the file plays. */
  lemma MiddleDecides(kept: seq<Segment>, removed: seq<Segment>, durations: seq<nat>, cuts: seq<(nat, nat)>, i: nat)
    requires SortsAll(kept, removed, durations, cuts) && i < |durations|
    ensures HeldBy(removed, i) <==> IsCut(durations, cuts, i)
    ensures HeldBy(kept, i) <==> !IsCut(durations, cuts, i)
    ensures Played(kept) + Played(removed) == FrameDiff.Span(durations, 0, |durations|)
  {
    hide IsCut;
    var tiles :| Sorted(kept, removed, tiles, durations, cuts, |durations|);
    assert Sorted(kept, removed, tiles, durations, cuts, |durations|);
    FrameDiff.PartsPlayAll(kept, removed, tiles, durations);
    var k := FrameDiff.TilesHold(tiles, durations, |durations|, i);
    assert tiles[k] in multiset(tiles);
    assert tiles[k] in kept || tiles[k] in removed;
    assert HeldBy(kept, i) || HeldBy(removed, i);
    if s :| s in kept && s.start <= i < s.end {
      var p :| 0 <= p < |kept| && kept[p] == s;
      assert !IsCut(durations, cuts, i);
    }
    if s :| s in removed && s.start <= i < s.end {
      var p :| 0 <= p < |removed| && removed[p] == s;
      assert IsCut(durations, cuts, i);
    }
  }
}
