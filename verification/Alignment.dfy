/** Finding the runs: anchors on groups of frames unique in both downloads,
    the longest chain of them, and each extended into a run. Frames are
    compared by hash here; both hashes are arbitrary functions. */
module Alignment {
  import opened Common
  import opened Runs

  const ANCHOR_FRAMES: nat := 16

  function Grams(hashes: seq<int>, gram: seq<int> -> int): (r: seq<int>)
    ensures |r| == if |hashes| < ANCHOR_FRAMES then 0 else |hashes| - ANCHOR_FRAMES + 1
  {
    if |hashes| < ANCHOR_FRAMES then []
    else seq(|hashes| - ANCHOR_FRAMES + 1, i requires 0 <= i <= |hashes| - ANCHOR_FRAMES => gram(hashes[i..i + ANCHOR_FRAMES]))
  }

  /** The value at i occurs nowhere else. */
  ghost predicate Once(values: seq<int>, i: nat) {
    i < |values| && forall k | 0 <= k < |values| && k != i :: values[k] != values[i]
  }

  /** Groups i and j have one hash, and no other group of either file has it. */
  ghost predicate IsAnchor(homeGrams: seq<int>, otherGrams: seq<int>, i: nat, j: nat) {
    Once(homeGrams, i) && Once(otherGrams, j) && homeGrams[i] == otherGrams[j]
  }

  lemma OnceByCount(values: seq<int>, i: nat)
    requires i < |values|
    ensures Once(values, i) <==> multiset(values)[values[i]] == 1
  {
    if !Once(values, i) {
      var k :| 0 <= k < |values| && k != i && values[k] == values[i];
      if k < i { TwiceInMultiset(values, k, i); } else { TwiceInMultiset(values, i, k); }
    } else {
      assert values == values[..i] + ([values[i]] + values[i + 1..]);
      assert values[i] !in values[..i] && values[i] !in values[i + 1..];
    }
  }

  method Count(values: seq<int>) returns (counts: map<int, nat>)
    ensures counts.Keys == set v | v in values
    ensures forall v | v in counts :: counts[v] == multiset(values)[v]
  {
    counts := map[];
    for i := 0 to |values|
      invariant counts.Keys == set v | v in values[..i]
      invariant forall v | v in counts :: counts[v] == multiset(values[..i])[v]
    {
      assert values[..i + 1] == values[..i] + [values[i]];
      counts := counts[values[i] := if values[i] in counts then counts[values[i]] + 1 else 1];
    }
    assert values[..|values|] == values;
  }

  /** Where each hash that occurs once occurs. */
  method IndexUnique(values: seq<int>) returns (index: map<int, nat>)
    ensures forall v | v in index :: Once(values, index[v]) && values[index[v]] == v
    ensures forall j: nat | Once(values, j) :: values[j] in index && index[values[j]] == j
  {
    var counts := Count(values);
    index := map[];
    for j := 0 to |values|
      invariant forall v | v in index :: index[v] < j && Once(values, index[v]) && values[index[v]] == v
      invariant forall l | 0 <= l < j && Once(values, l) :: values[l] in index && index[values[l]] == l
    {
      OnceByCount(values, j);
      if counts[values[j]] == 1 {
        index := index[values[j] := j];
      }
    }
  }

  /** Every anchor, in home order. */
  method FindAnchors(homeGrams: seq<int>, otherGrams: seq<int>) returns (anchors: seq<Run>)
    ensures forall p, q | 0 <= p < q < |anchors| :: anchors[p].home < anchors[q].home
    ensures forall a | a in anchors :: a.length == ANCHOR_FRAMES && IsAnchor(homeGrams, otherGrams, a.home, a.other)
    ensures forall i: nat, j: nat | IsAnchor(homeGrams, otherGrams, i, j) :: Run(i, j, ANCHOR_FRAMES) in anchors
  {
    var homeIndex := IndexUnique(homeGrams);
    var otherIndex := IndexUnique(otherGrams);
    anchors := [];
    for i := 0 to |homeGrams|
      invariant forall p, q | 0 <= p < q < |anchors| :: anchors[p].home < anchors[q].home
      invariant forall a | a in anchors ::
          a.home < i && a.length == ANCHOR_FRAMES && IsAnchor(homeGrams, otherGrams, a.home, a.other)
      invariant forall k: nat, j: nat | k < i && IsAnchor(homeGrams, otherGrams, k, j) :: Run(k, j, ANCHOR_FRAMES) in anchors
    {
      var gram := homeGrams[i];
      if gram in homeIndex && homeIndex[gram] == i && gram in otherIndex {
        anchors := anchors + [Run(i, otherIndex[gram], ANCHOR_FRAMES)];
      }
    }
  }

  /** Runs in bounds, not empty, and disjoint and in order in both files. */
  ghost predicate InOrderRuns(runs: seq<Run>, homeLength: nat, otherLength: nat) {
    && (forall p | 0 <= p < |runs| ::
          runs[p].length > 0 && runs[p].home + runs[p].length <= homeLength && runs[p].other + runs[p].length <= otherLength)
    && (forall p, q | 0 <= p < q < |runs| ::
          runs[p].home + runs[p].length <= runs[q].home && runs[p].other + runs[p].length <= runs[q].other)
  }

  /** The run is one anchor, extended over equal frames as far as it goes:
      back to the lower bounds, on to the end of a file, or to a difference. */
  ghost predicate Extended(home: seq<int>, other: seq<int>, anchor: Run, lowerHome: nat, lowerOther: nat, r: Run) {
    && lowerHome <= r.home <= anchor.home && lowerOther <= r.other <= anchor.other
    && anchor.home - r.home == anchor.other - r.other
    && anchor.home + anchor.length <= r.home + r.length <= |home| && r.other + r.length <= |other|
    && home[r.home..anchor.home] == other[r.other..anchor.other]
    && home[anchor.home + anchor.length..r.home + r.length] == other[anchor.other + anchor.length..r.other + r.length]
    && (r.home == lowerHome || r.other == lowerOther || home[r.home - 1] != other[r.other - 1])
    && (r.home + r.length == |home| || r.other + r.length == |other| || home[r.home + r.length] != other[r.other + r.length])
  }

  /** Back from the anchor over equal frames; how many. */
  method Back(home: seq<int>, other: seq<int>, h: nat, o: nat, lowerHome: nat, lowerOther: nat) returns (n: nat)
    requires lowerHome <= h <= |home| && lowerOther <= o <= |other|
    ensures n <= h - lowerHome && n <= o - lowerOther
    ensures home[h - n..h] == other[o - n..o]
    ensures h - n == lowerHome || o - n == lowerOther || home[h - n - 1] != other[o - n - 1]
  {
    n := 0;
    while h - n > lowerHome && o - n > lowerOther && home[h - n - 1] == other[o - n - 1]
      invariant n <= h - lowerHome && n <= o - lowerOther
      invariant home[h - n..h] == other[o - n..o]
    {
      assert home[h - n - 1..h] == [home[h - n - 1]] + home[h - n..h];
      assert other[o - n - 1..o] == [other[o - n - 1]] + other[o - n..o];
      n := n + 1;
    }
  }

  /** On over equal frames, to a difference or the end of a file. */
  method Forward(home: seq<int>, other: seq<int>, h: nat, o: nat) returns (n: nat)
    requires h <= |home| && o <= |other|
    ensures h + n <= |home| && o + n <= |other|
    ensures home[h..h + n] == other[o..o + n]
    ensures h + n == |home| || o + n == |other| || home[h + n] != other[o + n]
  {
    n := 0;
    while h + n < |home| && o + n < |other| && home[h + n] == other[o + n]
      invariant h + n <= |home| && o + n <= |other|
      invariant home[h..h + n] == other[o..o + n]
    {
      assert home[h..h + n + 1] == home[h..h + n] + [home[h + n]];
      assert other[o..o + n + 1] == other[o..o + n] + [other[o + n]];
      n := n + 1;
    }
  }

  method Extend(home: seq<int>, other: seq<int>, anchor: Run, lowerHome: nat, lowerOther: nat) returns (r: Run)
    requires lowerHome <= anchor.home && lowerOther <= anchor.other
    requires anchor.home + anchor.length <= |home| && anchor.other + anchor.length <= |other|
    ensures Extended(home, other, anchor, lowerHome, lowerOther, r)
  {
    hide Extended;
    var back := Back(home, other, anchor.home, anchor.other, lowerHome, lowerOther);
    var forward := Forward(home, other, anchor.home + anchor.length, anchor.other + anchor.length);
    r := Run(anchor.home - back, anchor.other - back, back + anchor.length + forward);
    BothWays(home, other, anchor, lowerHome, lowerOther, back, forward);
  }

  lemma BothWays(home: seq<int>, other: seq<int>, a: Run, lowerHome: nat, lowerOther: nat, back: nat, forward: nat)
    requires lowerHome <= a.home - back && lowerOther <= a.other - back
    requires a.home + a.length + forward <= |home| && a.other + a.length + forward <= |other|
    requires home[a.home - back..a.home] == other[a.other - back..a.other]
    requires a.home - back == lowerHome || a.other - back == lowerOther || home[a.home - back - 1] != other[a.other - back - 1]
    requires home[a.home + a.length..a.home + a.length + forward] == other[a.other + a.length..a.other + a.length + forward]
    requires a.home + a.length + forward == |home| || a.other + a.length + forward == |other|
             || home[a.home + a.length + forward] != other[a.other + a.length + forward]
    ensures Extended(home, other, a, lowerHome, lowerOther, Run(a.home - back, a.other - back, back + a.length + forward))
  {
  }

  ghost function HomeEnd(runs: seq<Run>): nat {
    if runs == [] then 0 else runs[|runs| - 1].home + runs[|runs| - 1].length
  }

  ghost function OtherEnd(runs: seq<Run>): nat {
    if runs == [] then 0 else runs[|runs| - 1].other + runs[|runs| - 1].length
  }

  /** Run p grew from one of the anchors, bounded by the run before it. */
  ghost predicate GrownFrom(home: seq<int>, other: seq<int>, anchors: seq<Run>, runs: seq<Run>, p: nat)
    requires p < |runs|
  {
    exists a | a in anchors :: Extended(home, other, a, HomeEnd(runs[..p]), OtherEnd(runs[..p]), runs[p])
  }

  /** An anchor is covered once some run reaches past its start in either file. */
  ghost predicate Covered(runs: seq<Run>, a: Run) {
    a.home < HomeEnd(runs) || a.other < OtherEnd(runs)
  }

  /** What becomes of the anchors, taken in turn: one that is covered by the
      runs so far gives nothing, and any other the next run. */
  ghost predicate GrownInTurn(home: seq<int>, other: seq<int>, anchors: seq<Run>, runs: seq<Run>)
    decreases |anchors|
  {
    if anchors == [] then runs == []
    else
      var before, a := anchors[..|anchors| - 1], anchors[|anchors| - 1];
      || (Covered(runs, a) && GrownInTurn(home, other, before, runs))
      || (runs != []
          && var done := runs[..|runs| - 1];
             && !Covered(done, a) && GrownInTurn(home, other, before, done)
             && Extended(home, other, a, HomeEnd(done), OtherEnd(done), runs[|runs| - 1]))
  }

  lemma GrownStep(home: seq<int>, other: seq<int>, anchors: seq<Run>, runs: seq<Run>, a: Run, r: Run)
    requires forall p | 0 <= p < |runs| :: GrownFrom(home, other, anchors, runs, p)
    requires a in anchors && Extended(home, other, a, HomeEnd(runs), OtherEnd(runs), r)
    ensures forall p | 0 <= p < |runs| + 1 :: GrownFrom(home, other, anchors, runs + [r], p)
  {
    forall p | 0 <= p < |runs| + 1
      ensures GrownFrom(home, other, anchors, runs + [r], p)
    {
      assert (runs + [r])[..p] == runs[..p];
      if p < |runs| {
        assert GrownFrom(home, other, anchors, runs, p);
        var from :| from in anchors && Extended(home, other, from, HomeEnd(runs[..p]), OtherEnd(runs[..p]), runs[p]);
      } else {
        assert runs[..p] == runs;
      }
    }
  }

  /** One anchor: skipped when covered, otherwise grown into the next run. */
  method GrowOne(home: seq<int>, other: seq<int>, ghost anchors: seq<Run>, a: Run, runs: seq<Run>) returns (more: seq<Run>)
    requires a in anchors && a.length > 0 && a.home + a.length <= |home| && a.other + a.length <= |other|
    requires InOrderRuns(runs, |home|, |other|)
    requires forall p | 0 <= p < |runs| :: GrownFrom(home, other, anchors, runs, p)
    ensures InOrderRuns(more, |home|, |other|) && Covered(more, a)
    ensures HomeEnd(runs) <= HomeEnd(more) && OtherEnd(runs) <= OtherEnd(more)
    ensures forall p | 0 <= p < |more| :: GrownFrom(home, other, anchors, more, p)
    ensures if Covered(runs, a) then more == runs
            else more != [] && more[..|more| - 1] == runs && Extended(home, other, a, HomeEnd(runs), OtherEnd(runs), more[|more| - 1])
  {
    var lowerHome, lowerOther := 0, 0;
    if runs != [] {
      var last := runs[|runs| - 1];
      lowerHome, lowerOther := last.home + last.length, last.other + last.length;
    }
    if a.home < lowerHome || a.other < lowerOther {
      return runs;
    }
    var r := Extend(home, other, a, lowerHome, lowerOther);
    GrownStep(home, other, anchors, runs, a, r);
    GrownInOrder(runs, r, |home|, |other|);
    more := runs + [r];
  }

  lemma GrownInOrder(runs: seq<Run>, r: Run, n: nat, m: nat)
    requires InOrderRuns(runs, n, m) && r.length > 0
    requires HomeEnd(runs) <= r.home && OtherEnd(runs) <= r.other && r.home + r.length <= n && r.other + r.length <= m
    ensures InOrderRuns(runs + [r], n, m)
  {
    var all := runs + [r];
    forall p, q | 0 <= p < q < |all|
      ensures all[p].home + all[p].length <= all[q].home && all[p].other + all[p].length <= all[q].other
    {
      if q == |runs| && p < |runs| - 1 {
        assert runs[p].home + runs[p].length <= runs[|runs| - 1].home;
      }
    }
  }

  /** The runs grown, in order, from the chain of anchors. */
  method GrowRuns(home: seq<int>, other: seq<int>, anchors: seq<Run>) returns (runs: seq<Run>)
    requires forall a | a in anchors :: a.length > 0 && a.home + a.length <= |home| && a.other + a.length <= |other|
    ensures InOrderRuns(runs, |home|, |other|)
    ensures forall p | 0 <= p < |runs| :: GrownFrom(home, other, anchors, runs, p)
    ensures forall a | a in anchors :: Covered(runs, a)
    ensures GrownInTurn(home, other, anchors, runs)
  {
    runs := [];
    for i := 0 to |anchors|
      invariant InOrderRuns(runs, |home|, |other|)
      invariant forall p | 0 <= p < |runs| :: GrownFrom(home, other, anchors, runs, p)
      invariant forall q | 0 <= q < i :: Covered(runs, anchors[q])
      invariant GrownInTurn(home, other, anchors[..i], runs)
    {
      hide Extended, GrownFrom, InOrderRuns;
      assert anchors[..i + 1][..i] == anchors[..i];
      runs := GrowOne(home, other, anchors, anchors[i], runs);
    }
    assert anchors[..|anchors|] == anchors;
  }

  /** A chain of anchors: each a group unique in both files, in order in both. */
  ghost predicate AnchorChain(homeGrams: seq<int>, otherGrams: seq<int>, chain: seq<Run>) {
    && Chain(chain)
    && forall a | a in chain :: a.length == ANCHOR_FRAMES && IsAnchor(homeGrams, otherGrams, a.home, a.other)
  }

  /** The runs two downloads' frame hashes share: each grown from an anchor
      of a longest chain, and every anchor of that chain accounted for. */
  method Align(home: seq<int>, other: seq<int>, gram: seq<int> -> int) returns (runs: seq<Run>, ghost chain: seq<Run>)
    ensures InOrderRuns(runs, |home|, |other|)
    ensures AnchorChain(Grams(home, gram), Grams(other, gram), chain)
    ensures forall better: seq<Run> | AnchorChain(Grams(home, gram), Grams(other, gram), better) :: |better| <= |chain|
    ensures forall p | 0 <= p < |runs| :: GrownFrom(home, other, chain, runs, p)
    ensures forall a | a in chain :: Covered(runs, a)
    ensures GrownInTurn(home, other, chain, runs)
  {
    var homeGrams, otherGrams := Grams(home, gram), Grams(other, gram);
    var anchors := FindAnchors(homeGrams, otherGrams);
    var kept := InOrder(anchors);
    chain := kept;
    runs := GrowRuns(home, other, kept);
    forall better: seq<Run> | AnchorChain(homeGrams, otherGrams, better)
      ensures |better| <= |chain|
    {
      forall p | 0 <= p < |better|
        ensures better[p] in anchors
      {
        assert better[p] in better;
        assert better[p] == Run(better[p].home, better[p].other, ANCHOR_FRAMES);
      }
      assert DrawnFrom(better, anchors);
    }
  }
}
