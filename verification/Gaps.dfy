/** What a list of spans leaves bare of a line of steps, and what adding up the
    gaps between neighbours makes of it: the two agree exactly when every long
    gap is bare. */
module Gaps {
  import opened Common

  type Spans = seq<(int, int)>

  /** Where the gap before span i begins, and ends; the last one ends the line. */
  function GapStart(s: Spans, i: nat): int
    requires i <= |s|
  {
    if i == 0 then 0 else s[i - 1].1
  }

  function GapEnd(s: Spans, i: nat, size: nat): int
    requires i <= |s|
  {
    if i < |s| then s[i].0 else size
  }

  /** A stretch that lasts, at so much a step, long enough to count. */
  predicate Long(from: int, to: int, unit: nat, least: nat) {
    (to - from) * unit >= least
  }

  /** A running total and a count, with one more stretch in them if it is long. */
  function WithStretch(sum: (nat, nat), from: int, to: int, unit: nat, least: nat): (r: (nat, nat)) {
    if Long(from, to, unit, least) then (sum.0 + (to - from) * unit, sum.1 + 1) else sum
  }

  /** How long the first n gaps that are long last together, and how many they are. */
  function LongGaps(s: Spans, n: nat, size: nat, unit: nat, least: nat): (r: (nat, nat))
    requires n <= |s| + 1
  {
    if n == 0 then (0, 0)
    else WithStretch(LongGaps(s, n - 1, size, unit, least), GapStart(s, n - 1), GapEnd(s, n - 1, size), unit, least)
  }

  // ---- what is bare ----

  /** No span reaches into the stretch, which lies on the line. */
  ghost predicate Bare(s: Spans, size: nat, from: int, to: int) {
    0 <= from && to <= size && forall x | x in s :: x.1 <= from || to <= x.0
  }

  /** In a long stretch no span reaches into. */
  ghost predicate InBare(s: Spans, size: nat, unit: nat, least: nat, step: int) {
    exists from: int, to: int | from <= step < to && Long(from, to, unit, least) :: Bare(s, size, from, to)
  }

  ghost function BareSteps(s: Spans, size: nat, unit: nat, least: nat): set<int> {
    set step | 0 <= step < size && InBare(s, size, unit, least, step)
  }

  /** A long bare stretch that is part of no wider one. */
  ghost predicate Whole(s: Spans, size: nat, unit: nat, least: nat, from: int, to: int) {
    && Bare(s, size, from, to) && Long(from, to, unit, least)
    && forall a: int, b: int | a <= from && to <= b && Bare(s, size, a, b) :: a == from && b == to
  }

  ghost function Wholes(s: Spans, size: nat, unit: nat, least: nat): set<(int, int)> {
    set from, to | 0 <= from <= size && 0 <= to <= size && Whole(s, size, unit, least, from, to) :: (from, to)
  }

  /** Spans go forward, and each begins no more than slack before the one before it ends. */
  ghost predicate Forward(s: Spans, slack: nat) {
    && (forall x | x in s :: x.0 <= x.1)
    && forall i | 0 < i < |s| :: s[i - 1].1 - slack <= s[i].0
  }

  // ---- the bare part of a gap ----

  /** How far the first i spans reach, and where the others begin. */
  function Left(s: Spans, i: nat): (end: int)
    requires i <= |s|
    ensures end >= 0 && forall k | 0 <= k < i :: s[k].1 <= end
  {
    if i == 0 then 0 else Max(Left(s, i - 1), s[i - 1].1)
  }

  function Right(s: Spans, i: nat, size: nat): (start: int)
    requires i <= |s|
    ensures start <= size && forall k | i <= k < |s| :: start <= s[k].0
    decreases |s| - i
  {
    if i == |s| then size else -Max(-Right(s, i + 1, size), -s[i].0)
  }

  lemma {:induction false} LeftAtMost(s: Spans, i: nat, end: int)
    requires i <= |s| && 0 <= end && forall k | 0 <= k < i :: s[k].1 <= end
    ensures Left(s, i) <= end
  {
    if i > 0 {
      LeftAtMost(s, i - 1, end);
    }
  }

  lemma {:induction false} RightAtLeast(s: Spans, i: nat, size: nat, start: int)
    requires i <= |s| && start <= size && forall k | i <= k < |s| :: start <= s[k].0
    ensures start <= Right(s, i, size)
    decreases |s| - i
  {
    if i < |s| {
      RightAtLeast(s, i + 1, size, start);
    }
  }

  lemma ClearIsBare(s: Spans, size: nat, i: nat)
    requires i <= |s|
    ensures Bare(s, size, Left(s, i), Right(s, i, size))
    ensures GapStart(s, i) <= Left(s, i) && Right(s, i, size) <= GapEnd(s, i, size)
  {
    hide Left, Right;
    forall x | x in s
      ensures x.1 <= Left(s, i) || Right(s, i, size) <= x.0
    {
      var k :| 0 <= k < |s| && s[k] == x;
    }
  }

  /** A bare stretch wider than the slack has the first spans before it and the
      others after it, so it lies in one gap. */
  lemma LiesInGap(s: Spans, size: nat, slack: nat, from: int, to: int) returns (i: nat)
    requires Forward(s, slack) && Bare(s, size, from, to) && from + slack < to
    ensures i <= |s| && Left(s, i) <= from && to <= Right(s, i, size)
  {
    i := 0;
    while i < |s| && s[i].1 <= from
      invariant i <= |s| && forall k | 0 <= k < i :: s[k].1 <= from
    {
      i := i + 1;
    }
    var n := i;
    while n < |s|
      invariant i <= n <= |s| && forall k | i <= k < n :: to <= s[k].0
    {
      assert s[n] in s;
      if n > i {
        assert s[n - 1] in s;
      }
      n := n + 1;
    }
    LeftAtMost(s, i, from);
    RightAtLeast(s, i, size, to);
  }

  lemma ClearInOrder(s: Spans, size: nat, slack: nat, i: nat, j: nat)
    requires Forward(s, slack) && i < j <= |s|
    ensures Right(s, i, size) <= Left(s, j)
  {
    assert s[i] in s;
  }

  lemma LongIsWide(from: int, to: int, unit: nat, least: nat, slack: nat)
    requires Long(from, to, unit, least) && slack * unit < least
    ensures from + slack < to && unit > 0
  {
    if to - from <= slack {
      Scaled(to - from, slack, unit);
    }
  }

  lemma Scaled(a: int, b: int, unit: nat)
    requires a <= b
    ensures a * unit <= b * unit
    ensures a * unit == b * unit && unit > 0 ==> a == b
  {
    assert b * unit == a * unit + (b - a) * unit;
    if unit > 0 && a < b {
      assert (b - a) * unit >= 1;
    }
  }

  // ---- what the bare parts add up to ----

  function LongClears(s: Spans, n: nat, size: nat, unit: nat, least: nat): (r: (nat, nat))
    requires n <= |s| + 1
  {
    if n == 0 then (0, 0)
    else WithStretch(LongClears(s, n - 1, size, unit, least), Left(s, n - 1), Right(s, n - 1, size), unit, least)
  }

  predicate Within(from: int, step: int, to: int) { from <= step < to }

  function Between(from: int, to: int): (steps: set<int>) {
    set step | from <= step < to && Within(from, step, to)
  }

  lemma {:induction false} BetweenSize(from: int, to: int)
    requires from <= to
    ensures |Between(from, to)| == to - from
    decreases (to - from)
  {
    if from < to {
      BetweenSize(from, to - 1);
      var last := to - 1;
      assert forall step :: step in Between(from, last) <==> Within(from, step, last);
      assert forall step :: Within(from, step, to) <==> Within(from, step, last) || step == last;
      assert Between(from, to) == Between(from, last) + {last};
    }
  }

  /** The steps in the first n bare parts that are long, and those parts. */
  ghost function ClearSteps(s: Spans, n: nat, size: nat, unit: nat, least: nat): set<int>
    requires n <= |s| + 1
  {
    if n == 0 then {}
    else
      var from, to := Left(s, n - 1), Right(s, n - 1, size);
      ClearSteps(s, n - 1, size, unit, least) + if Long(from, to, unit, least) then Between(from, to) else {}
  }

  ghost function Clears(s: Spans, n: nat, size: nat, unit: nat, least: nat): set<(int, int)>
    requires n <= |s| + 1
  {
    if n == 0 then {}
    else
      var from, to := Left(s, n - 1), Right(s, n - 1, size);
      Clears(s, n - 1, size, unit, least) + if Long(from, to, unit, least) then {(from, to)} else {}
  }

  ghost predicate IsClear(s: Spans, n: nat, size: nat, unit: nat, least: nat, from: int, to: int)
    requires n <= |s| + 1
  {
    exists i: nat | i < n :: Left(s, i) == from && Right(s, i, size) == to && Long(from, to, unit, least)
  }

  lemma IsClearStep(s: Spans, n: nat, size: nat, unit: nat, least: nat, from: int, to: int)
    requires 0 < n <= |s| + 1
    ensures IsClear(s, n, size, unit, least, from, to) <==>
              || IsClear(s, n - 1, size, unit, least, from, to)
              || (Left(s, n - 1) == from && Right(s, n - 1, size) == to && Long(from, to, unit, least))
  {
    hide Left, Right, Long;
  }

  lemma {:induction false} AmongClears(s: Spans, n: nat, size: nat, unit: nat, least: nat, from: int, to: int)
    requires n <= |s| + 1
    ensures (from, to) in Clears(s, n, size, unit, least) <==> IsClear(s, n, size, unit, least, from, to)
  {
    if n > 0 {
      AmongClears(s, n - 1, size, unit, least, from, to);
      IsClearStep(s, n, size, unit, least, from, to);
      hide Left, Right, Long, IsClear;
    }
  }

  ghost predicate InClear(s: Spans, n: nat, size: nat, unit: nat, least: nat, step: int)
    requires n <= |s| + 1
  {
    exists i: nat | i < n :: Left(s, i) <= step < Right(s, i, size) && Long(Left(s, i), Right(s, i, size), unit, least)
  }

  lemma InClearStep(s: Spans, n: nat, size: nat, unit: nat, least: nat, step: int)
    requires 0 < n <= |s| + 1
    ensures var from, to := Left(s, n - 1), Right(s, n - 1, size);
            InClear(s, n, size, unit, least, step) <==> InClear(s, n - 1, size, unit, least, step) || (from <= step < to && Long(from, to, unit, least))
  {
    hide Left, Right, Long;
  }

  lemma {:induction false} AmongClearSteps(s: Spans, n: nat, size: nat, unit: nat, least: nat, step: int)
    requires n <= |s| + 1
    ensures step in ClearSteps(s, n, size, unit, least) <==> InClear(s, n, size, unit, least, step)
  {
    if n > 0 {
      AmongClearSteps(s, n - 1, size, unit, least, step);
      InClearStep(s, n, size, unit, least, step);
      hide Left, Right, Long, InClear;
      assert step in Between(Left(s, n - 1), Right(s, n - 1, size)) <==> Within(Left(s, n - 1), step, Right(s, n - 1, size));
    }
  }

  lemma StretchCounted(sum: (nat, nat), steps: set<int>, clears: set<(int, int)>, from: int, to: int, unit: nat, least: nat)
    requires sum.0 == |steps| * unit && sum.1 == |clears| && least > 0
    requires Long(from, to, unit, least) ==> steps !! Between(from, to) && (from, to) !in clears
    ensures var more := WithStretch(sum, from, to, unit, least);
            && more.0 == |steps + if Long(from, to, unit, least) then Between(from, to) else {}| * unit
            && more.1 == |clears + if Long(from, to, unit, least) then {(from, to)} else {}|
  {
    if Long(from, to, unit, least) {
      LongIsForward(from, to, unit, least);
      BetweenSize(from, to);
      Distributes(|steps|, to - from, unit);
      hide Between, Long;
      assert |steps + Between(from, to)| == |steps| + |Between(from, to)|;
    }
  }

  /** Being in order, the bare parts count every step once, and one another once. */
  lemma {:induction false} ClearsCount(s: Spans, n: nat, size: nat, unit: nat, least: nat, slack: nat)
    requires Forward(s, slack) && n <= |s| + 1 && least > 0
    ensures LongClears(s, n, size, unit, least).0 == |ClearSteps(s, n, size, unit, least)| * unit
    ensures LongClears(s, n, size, unit, least).1 == |Clears(s, n, size, unit, least)|
  {
    hide *;
    if n == 0 {
      NoClears(s, size, unit, least);
    } else {
      ClearsCount(s, n - 1, size, unit, least, slack);
      ClearsApart(s, n - 1, size, unit, least, slack);
      OneMoreClear(s, n - 1, size, unit, least);
      StretchCounted(LongClears(s, n - 1, size, unit, least), ClearSteps(s, n - 1, size, unit, least), Clears(s, n - 1, size, unit, least),
                     Left(s, n - 1), Right(s, n - 1, size), unit, least);
    }
  }

  lemma NoClears(s: Spans, size: nat, unit: nat, least: nat)
    ensures LongClears(s, 0, size, unit, least) == (0, 0)
    ensures ClearSteps(s, 0, size, unit, least) == {} && Clears(s, 0, size, unit, least) == {}
  {
  }

  lemma OneMoreClear(s: Spans, n: nat, size: nat, unit: nat, least: nat)
    requires n <= |s|
    ensures var from, to := Left(s, n), Right(s, n, size);
            && LongClears(s, n + 1, size, unit, least) == WithStretch(LongClears(s, n, size, unit, least), from, to, unit, least)
            && ClearSteps(s, n + 1, size, unit, least)
               == ClearSteps(s, n, size, unit, least) + (if Long(from, to, unit, least) then Between(from, to) else {})
            && Clears(s, n + 1, size, unit, least)
               == Clears(s, n, size, unit, least) + if Long(from, to, unit, least) then {(from, to)} else {}
  {
    hide Left, Right, WithStretch, Long, Between;
  }

  lemma LongIsForward(from: int, to: int, unit: nat, least: nat)
    requires Long(from, to, unit, least) && least > 0
    ensures from < to
  {
  }

  lemma Distributes(a: nat, b: nat, unit: nat)
    ensures a * unit + b * unit == (a + b) * unit
  {
  }

  lemma ClearsApart(s: Spans, n: nat, size: nat, unit: nat, least: nat, slack: nat)
    requires Forward(s, slack) && n <= |s| && least > 0
    ensures ClearSteps(s, n, size, unit, least) !! Between(Left(s, n), Right(s, n, size))
    ensures Long(Left(s, n), Right(s, n, size), unit, least) ==> (Left(s, n), Right(s, n, size)) !in Clears(s, n, size, unit, least)
  {
    hide Left, Right, ClearSteps, Clears, Long, Forward;
    forall step | step in ClearSteps(s, n, size, unit, least)
      ensures step < Left(s, n)
    {
      AmongClearSteps(s, n, size, unit, least, step);
      var i: nat :| i < n && Left(s, i) <= step < Right(s, i, size) && Long(Left(s, i), Right(s, i, size), unit, least);
      ClearInOrder(s, size, slack, i, n);
    }
    var from, to := Left(s, n), Right(s, n, size);
    if Long(from, to, unit, least) && (from, to) in Clears(s, n, size, unit, least) {
      AmongClears(s, n, size, unit, least, from, to);
      var i: nat :| i < n && Left(s, i) == from && Right(s, i, size) == to && Long(from, to, unit, least);
      ClearInOrder(s, size, slack, i, n);
      LongIsForward(from, to, unit, least);
    }
  }

  // ---- they are what is bare ----

  lemma BareStepsAreClear(s: Spans, size: nat, unit: nat, least: nat, slack: nat)
    requires Forward(s, slack) && slack * unit < least
    ensures BareSteps(s, size, unit, least) == ClearSteps(s, |s| + 1, size, unit, least)
  {
    hide Left, Right, ClearSteps, Forward, Bare;
    forall step
      ensures step in BareSteps(s, size, unit, least) <==> step in ClearSteps(s, |s| + 1, size, unit, least)
    {
      AmongClearSteps(s, |s| + 1, size, unit, least, step);
      if step in BareSteps(s, size, unit, least) {
        var from: int, to: int :| from <= step < to && Long(from, to, unit, least) && Bare(s, size, from, to);
        LongIsWide(from, to, unit, least, slack);
        var i := LiesInGap(s, size, slack, from, to);
        Scaled(to - from, Right(s, i, size) - Left(s, i), unit);
      }
      if step in ClearSteps(s, |s| + 1, size, unit, least) {
        var i: nat :| i < |s| + 1 && Left(s, i) <= step < Right(s, i, size) && Long(Left(s, i), Right(s, i, size), unit, least);
        ClearIsBare(s, size, i);
        assert InBare(s, size, unit, least, step);
      }
    }
  }

  lemma WholeIsClear(s: Spans, size: nat, unit: nat, least: nat, slack: nat, from: int, to: int)
    requires Forward(s, slack) && slack * unit < least && Whole(s, size, unit, least, from, to)
    ensures exists i: nat | i < |s| + 1 :: Left(s, i) == from && Right(s, i, size) == to
  {
    LongIsWide(from, to, unit, least, slack);
    hide Left, Right, Forward, Bare, Long;
    var i := LiesInGap(s, size, slack, from, to);
    ClearIsBare(s, size, i);
  }

  lemma NoneWider(s: Spans, size: nat, slack: nat, i: nat, a: int, b: int)
    requires Forward(s, slack) && i <= |s| && Left(s, i) + slack < Right(s, i, size)
    requires a <= Left(s, i) && Right(s, i, size) <= b && Bare(s, size, a, b)
    ensures a == Left(s, i) && b == Right(s, i, size)
  {
    hide Left, Right, Bare, Forward;
    var k := LiesInGap(s, size, slack, a, b);
    if k < i {
      ClearInOrder(s, size, slack, k, i);
    } else if i < k {
      ClearInOrder(s, size, slack, i, k);
    }
  }

  lemma ClearIsWhole(s: Spans, size: nat, unit: nat, least: nat, slack: nat, i: nat)
    requires Forward(s, slack) && slack * unit < least && i <= |s| && Long(Left(s, i), Right(s, i, size), unit, least)
    ensures Whole(s, size, unit, least, Left(s, i), Right(s, i, size))
  {
    var from, to := Left(s, i), Right(s, i, size);
    ClearIsBare(s, size, i);
    LongIsWide(from, to, unit, least, slack);
    hide Left, Right, Bare, Long, Forward;
    forall a: int, b: int | a <= from && to <= b && Bare(s, size, a, b)
      ensures a == from && b == to
    {
      NoneWider(s, size, slack, i, a, b);
    }
  }

  lemma WholesAreClears(s: Spans, size: nat, unit: nat, least: nat, slack: nat)
    requires Forward(s, slack) && slack * unit < least
    ensures Wholes(s, size, unit, least) == Clears(s, |s| + 1, size, unit, least)
  {
    hide Left, Right, Clears, Forward, Whole;
    forall p: (int, int)
      ensures p in Wholes(s, size, unit, least) <==> p in Clears(s, |s| + 1, size, unit, least)
    {
      var (from, to) := p;
      AmongClears(s, |s| + 1, size, unit, least, from, to);
      if Whole(s, size, unit, least, from, to) {
        WholeIsClear(s, size, unit, least, slack, from, to);
        WholeBounds(s, size, unit, least, slack, from, to);
      }
      if IsClear(s, |s| + 1, size, unit, least, from, to) {
        var i: nat :| i < |s| + 1 && Left(s, i) == from && Right(s, i, size) == to && Long(from, to, unit, least);
        ClearIsWhole(s, size, unit, least, slack, i);
        WholeBounds(s, size, unit, least, slack, from, to);
      }
    }
  }

  lemma WholeBounds(s: Spans, size: nat, unit: nat, least: nat, slack: nat, from: int, to: int)
    requires slack * unit < least && Whole(s, size, unit, least, from, to)
    ensures 0 <= from < to <= size && Long(from, to, unit, least)
  {
    LongIsWide(from, to, unit, least, slack);
  }

  // ---- when the two agree ----

  /** Every long gap is bare. */
  ghost predicate LongGapsBare(s: Spans, size: nat, unit: nat, least: nat) {
    forall i: nat | i <= |s| && Long(GapStart(s, i), GapEnd(s, i, size), unit, least) ::
      Bare(s, size, GapStart(s, i), GapEnd(s, i, size))
  }

  /** A long bare stretch within the gap. */
  ghost predicate HoldsBare(s: Spans, size: nat, unit: nat, least: nat, i: nat)
    requires i <= |s|
  {
    exists from: int, to: int | GapStart(s, i) <= from && to <= GapEnd(s, i, size) && Long(from, to, unit, least) :: Bare(s, size, from, to)
  }

  ghost predicate LongGapsHoldBare(s: Spans, size: nat, unit: nat, least: nat) {
    forall i: nat | i <= |s| && Long(GapStart(s, i), GapEnd(s, i, size), unit, least) :: HoldsBare(s, size, unit, least, i)
  }

  /** A bare stretch within gap i lies within its bare part. */
  lemma BareWithinGap(s: Spans, size: nat, slack: nat, i: nat, from: int, to: int)
    requires Forward(s, slack) && i <= |s| && Bare(s, size, from, to) && from + slack < to
    requires GapStart(s, i) <= from && to <= GapEnd(s, i, size)
    ensures Left(s, i) <= from && to <= Right(s, i, size)
  {
    var k := LiesInGap(s, size, slack, from, to);
    assert 0 < i ==> s[i - 1] in s;
    assert i < |s| ==> s[i] in s;
  }

  lemma BareIsClear(s: Spans, size: nat, unit: nat, least: nat, slack: nat, i: nat)
    requires Forward(s, slack) && slack * unit < least && i <= |s|
    requires Long(GapStart(s, i), GapEnd(s, i, size), unit, least)
    ensures Bare(s, size, GapStart(s, i), GapEnd(s, i, size)) <==> GapStart(s, i) == Left(s, i) && GapEnd(s, i, size) == Right(s, i, size)
    ensures HoldsBare(s, size, unit, least, i) <==> Long(Left(s, i), Right(s, i, size), unit, least)
  {
    LongIsWide(GapStart(s, i), GapEnd(s, i, size), unit, least, slack);
    ClearIsBare(s, size, i);
    hide Left, Right, Bare, Forward, Long, GapStart, GapEnd;
    if Bare(s, size, GapStart(s, i), GapEnd(s, i, size)) {
      BareWithinGap(s, size, slack, i, GapStart(s, i), GapEnd(s, i, size));
    }
    if HoldsBare(s, size, unit, least, i) {
      var from: int, to: int :| GapStart(s, i) <= from && to <= GapEnd(s, i, size) && Long(from, to, unit, least) && Bare(s, size, from, to);
      LongIsWide(from, to, unit, least, slack);
      BareWithinGap(s, size, slack, i, from, to);
      LongerStill(from, to, Left(s, i), Right(s, i, size), unit, least);
    }
  }

  lemma LongerStill(from: int, to: int, start: int, end: int, unit: nat, least: nat)
    requires start <= from && to <= end && Long(from, to, unit, least)
    ensures Long(start, end, unit, least)
  {
    Scaled(to - from, end - start, unit);
  }

  /** Up to gap n, the gaps come to no less than their bare parts, and to the
      same only if each does. */
  ghost predicate AgreeUpTo(s: Spans, n: nat, size: nat, unit: nat, least: nat)
    requires n <= |s| + 1
  {
    var gaps, clears := LongGaps(s, n, size, unit, least), LongClears(s, n, size, unit, least);
    && clears.0 <= gaps.0 && clears.1 <= gaps.1
    && (clears.0 == gaps.0 <==> forall i: nat | i < n && Long(GapStart(s, i), GapEnd(s, i, size), unit, least) ::
          GapStart(s, i) == Left(s, i) && GapEnd(s, i, size) == Right(s, i, size))
    && (clears.1 == gaps.1 <==> forall i: nat | i < n && Long(GapStart(s, i), GapEnd(s, i, size), unit, least) ::
          Long(Left(s, i), Right(s, i, size), unit, least))
  }

  lemma OneMore(sums: (nat, nat), others: (nat, nat), from: int, to: int, start: int, end: int, unit: nat, least: nat)
    requires start <= from && to <= end && 0 < least && others.0 <= sums.0 && others.1 <= sums.1
    ensures var a, b := WithStretch(sums, start, end, unit, least), WithStretch(others, from, to, unit, least);
            && b.0 <= a.0 && b.1 <= a.1
            && (b.0 == a.0 <==> others.0 == sums.0 && (Long(start, end, unit, least) ==> start == from && end == to))
            && (b.1 == a.1 <==> others.1 == sums.1 && (Long(start, end, unit, least) ==> Long(from, to, unit, least)))
  {
    Scaled(to - from, end - start, unit);
    if Long(start, end, unit, least) {
      LongIsWide(start, end, unit, least, 0);
    }
  }

  lemma {:induction false} Agrees(s: Spans, n: nat, size: nat, unit: nat, least: nat)
    requires n <= |s| + 1 && 0 < least
    ensures AgreeUpTo(s, n, size, unit, least)
  {
    if n > 0 {
      Agrees(s, n - 1, size, unit, least);
      ClearIsBare(s, size, n - 1);
      hide Left, Right, Bare, GapStart, GapEnd, Long, WithStretch;
      OneMore(LongGaps(s, n - 1, size, unit, least), LongClears(s, n - 1, size, unit, least),
              Left(s, n - 1), Right(s, n - 1, size), GapStart(s, n - 1), GapEnd(s, n - 1, size), unit, least);
    }
  }

  lemma AgreeIsBare(s: Spans, size: nat, unit: nat, least: nat, slack: nat)
    requires Forward(s, slack) && slack * unit < least && AgreeUpTo(s, |s| + 1, size, unit, least)
    ensures var gaps, clears := LongGaps(s, |s| + 1, size, unit, least), LongClears(s, |s| + 1, size, unit, least);
            && clears.0 <= gaps.0 && clears.1 <= gaps.1
            && (clears.0 == gaps.0 <==> LongGapsBare(s, size, unit, least))
            && (clears.1 == gaps.1 <==> LongGapsHoldBare(s, size, unit, least))
  {
    hide Left, Right, Bare, Forward, Long, GapStart, GapEnd, LongGaps, LongClears, HoldsBare;
    forall i: nat | i <= |s| && Long(GapStart(s, i), GapEnd(s, i, size), unit, least)
      ensures Bare(s, size, GapStart(s, i), GapEnd(s, i, size)) <==> GapStart(s, i) == Left(s, i) && GapEnd(s, i, size) == Right(s, i, size)
      ensures HoldsBare(s, size, unit, least, i) <==> Long(Left(s, i), Right(s, i, size), unit, least)
    {
      BareIsClear(s, size, unit, least, slack, i);
    }
  }

  /** The long gaps come to at least what the steps in long bare stretches
      last, and number at least those stretches; to exactly that if and only if
      every long gap is bare, and to exactly that number if and only if each
      holds such a stretch. */
  lemma GapsExactly(s: Spans, size: nat, unit: nat, least: nat, slack: nat)
    requires Forward(s, slack) && slack * unit < least
    ensures var gaps := LongGaps(s, |s| + 1, size, unit, least);
            && gaps.0 >= |BareSteps(s, size, unit, least)| * unit
            && gaps.1 >= |Wholes(s, size, unit, least)|
            && (gaps.0 == |BareSteps(s, size, unit, least)| * unit <==> LongGapsBare(s, size, unit, least))
            && (gaps.1 == |Wholes(s, size, unit, least)| <==> LongGapsHoldBare(s, size, unit, least))
  {
    hide *;
    BareStepsAreClear(s, size, unit, least, slack);
    WholesAreClears(s, size, unit, least, slack);
    ClearsCount(s, |s| + 1, size, unit, least, slack);
    Agrees(s, |s| + 1, size, unit, least);
    AgreeIsBare(s, size, unit, least, slack);
  }

  /** Spans on the line that follow one another leave every gap bare. */
  lemma ApartLeaveBare(s: Spans, size: nat, unit: nat, least: nat)
    requires forall i | 0 <= i < |s| :: 0 <= s[i].0 <= s[i].1 <= size
    requires forall i, j | 0 <= i < j < |s| :: s[i].1 <= s[j].0
    ensures Forward(s, 0) && LongGapsBare(s, size, unit, least) && LongGapsHoldBare(s, size, unit, least)
  {
    hide Long;
    forall i: nat | i <= |s|
      ensures Bare(s, size, GapStart(s, i), GapEnd(s, i, size))
    {
      forall x | x in s
        ensures x.1 <= GapStart(s, i) || GapEnd(s, i, size) <= x.0
      {
        var k :| 0 <= k < |s| && s[k] == x;
      }
    }
  }
}
