/** What the audio comparison's cuts and counts come to: when exactly the cuts
    are the long stretches of home that no run reaches into, and when exactly
    what is counted of the other download are its long stretches like that. */
module Unmatched {
  import opened Common
  import opened AudioRuns
  import Gaps

  // ---- the home download ----

  /** The runs lie in the home download. */
  ghost predicate Inside(runs: seq<AudioRun>, size: nat) {
    forall r | r in runs :: 0 <= r.home && r.End() <= size
  }

  /** The step lies in a stretch of at least five seconds no run reaches into. */
  ghost predicate InUnmatched(runs: seq<AudioRun>, size: nat, step: int) {
    Gaps.InBare(Homes(runs), size, 1, MIN_BREAK, step)
  }

  /** Stretch i's edges, and between them where later runs without a step lie. */
  ghost predicate Mark(runs: seq<AudioRun>, i: nat, from: int, to: int, x: int) {
    || x == from || x == to
    || (from < x < to && exists p | i < p < |runs| :: runs[p].length == 0 && runs[p].home == x)
  }

  predicate Meets(r: AudioRun, from: int, to: int) {
    r.length > 0 && from < r.End() && r.home < to
  }

  /** No later run that has steps meets the stretch before run i, and those that
      have none part it into pieces of at least five seconds, if at all. */
  ghost predicate LeftAlone(runs: seq<AudioRun>, i: nat, from: int, to: int) {
    && (forall p | i < p < |runs| :: !Meets(runs[p], from, to))
    && forall x, y | Mark(runs, i, from, to, x) && Mark(runs, i, from, to, y) && x < y :: x + MIN_BREAK <= y
  }

  ghost predicate CutsLeftAlone(runs: seq<AudioRun>, size: nat) {
    forall i: nat | i <= |runs| && StretchEnd(runs, i, size) - Reach(runs, i) >= MIN_BREAK ::
      LeftAlone(runs, i, Reach(runs, i), StretchEnd(runs, i, size))
  }

  /** A stretch no run reaches into. */
  lemma BareIs(runs: seq<AudioRun>, size: nat, from: int, to: int)
    ensures Gaps.Bare(Homes(runs), size, from, to) <==> 0 <= from && to <= size && forall r | r in runs :: r.End() <= from || to <= r.home
  {
    forall r | r in runs
      ensures (r.home, r.End()) in Homes(runs)
    {
      var k :| 0 <= k < |runs| && runs[k] == r;
      assert Homes(runs)[k] == (r.home, r.End());
    }
    forall x | x in Homes(runs)
      ensures exists r | r in runs :: x == (r.home, r.End())
    {
      var k :| 0 <= k < |runs| && Homes(runs)[k] == x;
      assert runs[k] in runs;
    }
  }

  lemma ReachIsAnEnd(runs: seq<AudioRun>, i: nat)
    requires i <= |runs|
    ensures Reach(runs, i) == 0 || exists k | 0 <= k < i :: runs[k].End() == Reach(runs, i)
  {
  }

  lemma StretchInside(runs: seq<AudioRun>, size: nat, i: nat)
    requires Inside(runs, size) && i <= |runs|
    ensures StretchEnd(runs, i, size) <= size
  {
    assert i < |runs| ==> runs[i] in runs;
  }

  /** A long stretch no run reaches into is cut, whatever the order of the runs. */
  lemma UnmatchedIsCut(runs: seq<AudioRun>, size: nat, cuts: seq<(nat, nat)>, step: int)
    requires Inside(runs, size) && CutsUpTo(cuts, runs, size, |runs| + 1) && InUnmatched(runs, size, step)
    ensures InCuts(cuts, step)
  {
    var from: int, to: int :| from <= step < to && Gaps.Long(from, to, 1, MIN_BREAK) && Gaps.Bare(Homes(runs), size, from, to);
    BareIs(runs, size, from, to);
    hide Gaps.Bare, CutsUpTo;
    var i := 0;
    while i < |runs| && runs[i].home < to
      invariant i <= |runs|
      invariant Reach(runs, i) <= from
    {
      assert runs[i] in runs;
      i := i + 1;
    }
    StretchIsCut(runs, size, cuts, i);
  }

  lemma StretchIsCut(runs: seq<AudioRun>, size: nat, cuts: seq<(nat, nat)>, i: nat)
    requires CutsUpTo(cuts, runs, size, |runs| + 1) && i <= |runs| && StretchEnd(runs, i, size) - Reach(runs, i) >= MIN_BREAK
    ensures (Reach(runs, i), StretchEnd(runs, i, size)) in cuts
    ensures forall step | Reach(runs, i) <= step < StretchEnd(runs, i, size) :: InCuts(cuts, step)
  {
    hide Reach, StretchEnd;
    var cut: (nat, nat) := (Reach(runs, i), StretchEnd(runs, i, size));
    assert IsStretch(runs, size, i, cut);
    assert cut in cuts;
  }

  /** The piece between marks that a step is in. */
  lemma PieceOf(runs: seq<AudioRun>, i: nat, from: int, to: int, step: int) returns (f: int, t: int)
    requires i <= |runs| && from <= step < to
    ensures Mark(runs, i, from, to, f) && Mark(runs, i, from, to, t) && from <= f <= step < t <= to
    ensures forall p | i < p < |runs| && runs[p].length == 0 :: runs[p].home <= f || t <= runs[p].home
  {
    f, t := from, to;
    var p := i + 1;
    while p < |runs|
      invariant i < p && (p <= |runs| || p == i + 1)
      invariant Mark(runs, i, from, to, f) && Mark(runs, i, from, to, t) && from <= f <= step < t <= to
      invariant forall q | i < q < p && q < |runs| && runs[q].length == 0 :: runs[q].home <= f || t <= runs[q].home
    {
      if runs[p].length == 0 && f < runs[p].home < t {
        if runs[p].home <= step {
          f := runs[p].home;
        } else {
          t := runs[p].home;
        }
      }
      p := p + 1;
    }
  }

  lemma PieceIsBare(runs: seq<AudioRun>, size: nat, i: nat, f: int, t: int)
    requires Inside(runs, size) && i <= |runs|
    requires var from, to := Reach(runs, i), StretchEnd(runs, i, size);
             && from <= f <= t <= to && (forall p | i < p < |runs| :: !Meets(runs[p], from, to))
             && forall p | i < p < |runs| && runs[p].length == 0 :: runs[p].home <= f || t <= runs[p].home
    ensures Gaps.Bare(Homes(runs), size, f, t)
  {
    StretchInside(runs, size, i);
    hide Reach;
    forall r | r in runs
      ensures r.End() <= f || t <= r.home
    {
      var k :| 0 <= k < |runs| && runs[k] == r;
    }
    BareIs(runs, size, f, t);
  }

  lemma LeftAloneIsUnmatched(runs: seq<AudioRun>, size: nat, i: nat, step: int)
    requires Inside(runs, size) && i <= |runs| && Reach(runs, i) <= step < StretchEnd(runs, i, size)
    requires LeftAlone(runs, i, Reach(runs, i), StretchEnd(runs, i, size))
    ensures InUnmatched(runs, size, step)
  {
    var f, t := PieceOf(runs, i, Reach(runs, i), StretchEnd(runs, i, size), step);
    PieceIsBare(runs, size, i, f, t);
    hide Gaps.Bare, Reach, StretchEnd, Mark;
    assert Gaps.Long(f, t, 1, MIN_BREAK);
  }

  /** No bare stretch crosses a mark. */
  lemma MarkNotCrossed(runs: seq<AudioRun>, size: nat, i: nat, x: int, f: int, t: int)
    requires i <= |runs| && Mark(runs, i, Reach(runs, i), StretchEnd(runs, i, size), x)
    requires Gaps.Bare(Homes(runs), size, f, t)
    ensures x <= f || t <= x
  {
    BareIs(runs, size, f, t);
    hide Gaps.Bare;
    ReachIsAnEnd(runs, i);
    hide Reach;
    if x == Reach(runs, i) {
      if k :| 0 <= k < i && runs[k].End() == x {
        assert runs[k] in runs;
      }
    } else if x == StretchEnd(runs, i, size) {
      assert i < |runs| ==> runs[i] in runs;
    } else {
      var p :| i < p < |runs| && runs[p].length == 0 && runs[p].home == x;
      assert runs[p] in runs;
    }
  }

  lemma MetIsMatched(runs: seq<AudioRun>, size: nat, p: nat, step: int)
    requires p < |runs| && runs[p].home <= step < runs[p].End()
    ensures !InUnmatched(runs, size, step)
  {
    assert runs[p] in runs;
    forall from: int, to: int | from <= step < to
      ensures !Gaps.Bare(Homes(runs), size, from, to)
    {
      BareIs(runs, size, from, to);
    }
  }

  lemma ShortPieceIsMatched(runs: seq<AudioRun>, size: nat, i: nat, x: int, y: int)
    requires i <= |runs| && x < y < x + MIN_BREAK
    requires Mark(runs, i, Reach(runs, i), StretchEnd(runs, i, size), x) && Mark(runs, i, Reach(runs, i), StretchEnd(runs, i, size), y)
    ensures !InUnmatched(runs, size, x)
  {
    hide Gaps.Bare, Mark, Reach, StretchEnd;
    forall from: int, to: int | from <= x < to && Gaps.Long(from, to, 1, MIN_BREAK)
      ensures !Gaps.Bare(Homes(runs), size, from, to)
    {
      if Gaps.Bare(Homes(runs), size, from, to) {
        MarkNotCrossed(runs, size, i, x, from, to);
        MarkNotCrossed(runs, size, i, y, from, to);
        assert false;
      }
    }
  }

  /** A step that is cut though a run reaches it, or nothing long enough is bare around it. */
  lemma NotAloneIsMatched(runs: seq<AudioRun>, size: nat, i: nat) returns (step: int)
    requires i <= |runs| && !LeftAlone(runs, i, Reach(runs, i), StretchEnd(runs, i, size))
    requires StretchEnd(runs, i, size) - Reach(runs, i) >= MIN_BREAK
    ensures Reach(runs, i) <= step < StretchEnd(runs, i, size) && !InUnmatched(runs, size, step)
  {
    hide InUnmatched, Reach, StretchEnd;
    var from, to := Reach(runs, i), StretchEnd(runs, i, size);
    if p :| i < p < |runs| && Meets(runs[p], from, to) {
      step := Max(runs[p].home, from);
      MetIsMatched(runs, size, p, step);
    } else {
      var x, y :| Mark(runs, i, from, to, x) && Mark(runs, i, from, to, y) && x < y && !(x + MIN_BREAK <= y);
      step := x;
      ShortPieceIsMatched(runs, size, i, x, y);
    }
  }

  /** Every stretch cut is left alone, so what is cut is unmatched. */
  lemma CutIsUnmatched(runs: seq<AudioRun>, size: nat, cuts: seq<(nat, nat)>, step: int)
    requires Inside(runs, size) && CutsUpTo(cuts, runs, size, |runs| + 1) && CutsLeftAlone(runs, size) && InCuts(cuts, step)
    ensures InUnmatched(runs, size, step)
  {
    hide InUnmatched, Inside, LeftAlone, Reach, StretchEnd;
    var c :| c in cuts && c.0 <= step < c.1;
    var i: nat :| i < |runs| + 1 && IsStretch(runs, size, i, c);
    LeftAloneIsUnmatched(runs, size, i, step);
  }

  /** Whatever the order of the runs: what is cut are exactly the steps in
      stretches of at least five seconds that no run reaches into, if and only
      if the later runs leave every stretch that is cut alone. */
  lemma CutsExactly(runs: seq<AudioRun>, size: nat, cuts: seq<(nat, nat)>)
    requires Inside(runs, size) && CutsUpTo(cuts, runs, size, |runs| + 1)
    ensures (forall step :: InCuts(cuts, step) <==> InUnmatched(runs, size, step)) <==> CutsLeftAlone(runs, size)
  {
    hide InCuts, InUnmatched, CutsUpTo, Inside, LeftAlone, Reach, StretchEnd;
    if CutsLeftAlone(runs, size) {
      forall step
        ensures InCuts(cuts, step) <==> InUnmatched(runs, size, step)
      {
        if InCuts(cuts, step) {
          CutIsUnmatched(runs, size, cuts, step);
        } else if InUnmatched(runs, size, step) {
          UnmatchedIsCut(runs, size, cuts, step);
        }
      }
    } else {
      var i: nat :| i <= |runs| && StretchEnd(runs, i, size) - Reach(runs, i) >= MIN_BREAK
        && !LeftAlone(runs, i, Reach(runs, i), StretchEnd(runs, i, size));
      var step := NotAloneIsMatched(runs, size, i);
      StretchIsCut(runs, size, cuts, i);
    }
  }

  /** Runs in home order leave every cut alone. */
  lemma ByHomeLeftAlone(runs: seq<AudioRun>, size: nat)
    requires SortedBy(runs, HomeOf)
    ensures CutsLeftAlone(runs, size)
  {
    hide Reach;
    forall i, p | 0 <= i < p < |runs|
      ensures runs[i].home <= runs[p].home
    {
      assert HomeOf(runs[i]) <= HomeOf(runs[p]);
    }
  }

  /** A run that extending has left without a step, inside a stretch of six
      seconds before an earlier run: all of it is cut, though no five seconds
      of it are bare. */
  lemma EmptyRunReachesBack(cuts: seq<(nat, nat)>) returns (runs: seq<AudioRun>)
    ensures runs == [AudioRun(600, 100, 0), AudioRun(300, 0, 350)]
    ensures Inside(runs, 700) && LinesUp(runs, 2) && !CutsLeftAlone(runs, 700)
    ensures CutsUpTo(cuts, runs, 700, 3) ==> forall step | 0 <= step < 600 :: InCuts(cuts, step) && !InUnmatched(runs, 700, step)
  {
    runs := [AudioRun(600, 100, 0), AudioRun(300, 0, 350)];
    assert Reach(runs, 0) == 0 && StretchEnd(runs, 0, 700) == 600;
    assert runs[1].length == 0 && runs[1].home == 300;
    assert Mark(runs, 0, 0, 600, 0) && Mark(runs, 0, 0, 600, 300);
    if CutsUpTo(cuts, runs, 700, 3) {
      StretchIsCut(runs, 700, cuts, 0);
      assert runs[1] in runs;
      forall from: int, to: int | from < 600 && Gaps.Long(from, to, 1, MIN_BREAK)
        ensures !Gaps.Bare(Homes(runs), 700, from, to)
      {
        BareIs(runs, 700, from, to);
      }
    }
  }

  // ---- the other download ----

  lemma OthersForward(runs: seq<AudioRun>)
    requires LinesUp(runs, |runs|)
    ensures Gaps.Forward(Others(runs), LINE_UP_SLACK)
  {
    forall x | x in Others(runs)
      ensures x.0 <= x.1
    {
      var k :| 0 <= k < |runs| && Others(runs)[k] == x;
    }
    forall i | 0 < i < |runs|
      ensures Others(runs)[i - 1].1 - LINE_UP_SLACK <= Others(runs)[i].0
    {
      assert OtherGap(runs, i) >= -LINE_UP_SLACK;
    }
  }

  /** Whenever the comparison does not fail: what is counted as the other
      download's own are at least its steps in long stretches no run reaches
      into, and the breaks at least those stretches; it is exactly those steps
      if and only if every long gap is bare, and exactly as many breaks if and
      only if every long gap holds such a stretch. */
  lemma OwnExactly(runs: seq<AudioRun>, otherSize: nat)
    requires LinesUp(runs, |runs|)
    ensures var others := Others(runs);
            var steps, wholes := |Gaps.BareSteps(others, otherSize, 1, MIN_BREAK)|, |Gaps.Wholes(others, otherSize, 1, MIN_BREAK)|;
            && steps <= Own(runs, otherSize).0 && wholes <= Own(runs, otherSize).1
            && (Own(runs, otherSize).0 == steps <==> Gaps.LongGapsBare(others, otherSize, 1, MIN_BREAK))
            && (Own(runs, otherSize).1 == wholes <==> Gaps.LongGapsHoldBare(others, otherSize, 1, MIN_BREAK))
  {
    OthersForward(runs);
    hide LinesUp, Gaps.Forward, Gaps.BareSteps, Gaps.Wholes, Gaps.LongGaps, Gaps.LongGapsBare, Gaps.LongGapsHoldBare, Others;
    Gaps.GapsExactly(Others(runs), otherSize, 1, MIN_BREAK, LINE_UP_SLACK);
  }

  /** Two runs that overlap by the slack: the gap after the second is counted
      though the first reaches into it. Nothing of home is cut, nothing long
      of the other is bare, and yet a break is counted. */
  lemma OverlapIsCounted(cuts: seq<(nat, nat)>) returns (runs: seq<AudioRun>)
    ensures runs == [AudioRun(0, 1000, 0), AudioRun(900, 50, 0), AudioRun(1450, 600, 0)]
    ensures Inside(runs, 2050) && LinesUp(runs, 3)
    ensures Own(runs, 2050) == (500, 1) && Gaps.BareSteps(Others(runs), 2050, 1, MIN_BREAK) == {}
    ensures CutsUpTo(cuts, runs, 2050, 4) ==> cuts == []
  {
    assert cuts != [] ==> cuts[0] in cuts;
    runs := [AudioRun(0, 1000, 0), AudioRun(900, 50, 0), AudioRun(1450, 600, 0)];
    var others := Others(runs);
    assert others == [(0, 1000), (900, 950), (1450, 2050)];
    ThreeGaps(others, 2050);
    forall from: int, to: int | Gaps.Long(from, to, 1, MIN_BREAK)
      ensures !Gaps.Bare(others, 2050, from, to)
    {
      assert others[0] in others && others[2] in others;
    }
    assert Reach(runs, 1) == 1000 && Reach(runs, 2) == 1000 && Reach(runs, 3) == 2050;
    forall k: nat, c | k < 4
      ensures !IsStretch(runs, 2050, k, c)
    {
      assert k in {0, 1, 2, 3};
    }
  }

  lemma ThreeGaps(s: Gaps.Spans, size: nat)
    requires s == [(0, 1000), (900, 950), (1450, 2050)] && size == 2050
    ensures Gaps.LongGaps(s, 4, size, 1, MIN_BREAK) == (500, 1)
  {
    assert Gaps.LongGaps(s, 1, size, 1, MIN_BREAK) == (0, 0);
    assert Gaps.LongGaps(s, 2, size, 1, MIN_BREAK) == (0, 0);
    assert Gaps.LongGaps(s, 3, size, 1, MIN_BREAK) == (500, 1);
  }
}
