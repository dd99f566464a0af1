/** The carriers kept before a cut are as few as will do: leaving any more out
    breaks the frame they are kept for, in some file, unless those left out
    carry nothing. */
module FewestCarriers {
  import opened Common
  import opened Reservoir

  /** Frame k finds its n borrowed bytes at the end of what the plan has written. */
  ghost predicate Finds(data: seq<seq<byte>>, plan: seq<Written>, k: nat, n: nat)
    requires (forall w | w in plan :: w.index < |data|) && k <= |data|
  {
    && n <= |Flatten(OutData(data, plan))| && n <= |Flatten(data[..k])|
    && Last(Flatten(OutData(data, plan)), n) == Last(Flatten(data[..k]), n)
  }

  /** It does, whatever bytes the frames hold. */
  ghost predicate AlwaysFinds(sizes: seq<nat>, plan: seq<Written>, k: nat, n: nat)
    requires (forall w | w in plan :: w.index < |sizes|) && k <= |sizes|
  {
    forall data: seq<seq<byte>> | Sizes(data) == sizes :: Finds(data, plan, k, n)
  }

  lemma OutOfStretch(data: seq<seq<byte>>, from: nat, to: nat, silent: bool)
    requires from <= to <= |data|
    ensures OutData(data, Stretch(from, to, silent)) == data[from..to]
  {
  }

  lemma OutJoins(data: seq<seq<byte>>, a: seq<Written>, b: seq<Written>)
    requires (forall w | w in a :: w.index < |data|) && forall w | w in b :: w.index < |data|
    ensures Flatten(OutData(data, a + b)) == Flatten(OutData(data, a)) + Flatten(OutData(data, b))
  {
    FlattenAppend(OutData(data, a), OutData(data, b));
    assert OutData(data, a + b) == OutData(data, a) + OutData(data, b);
  }

  lemma {:induction false} PlanStaysBelow(sizes: seq<nat>, begins: seq<nat>, kept: seq<Segment>)
    requires |begins| == |sizes| && Ordered(kept, |sizes|)
    ensures forall w | w in Plan(sizes, begins, kept) :: w.index < KeptUpTo(kept) <= |sizes|
  {
    if kept != [] {
      PlanStaysBelow(sizes, begins, kept[..|kept| - 1]);
    }
  }

  /** What is written before the frame at start, with carriers from first on. */
  ghost function WithFrom(sizes: seq<nat>, begins: seq<nat>, kept: seq<Segment>, first: nat, start: nat): (plan: seq<Written>)
    requires |begins| == |sizes| && Ordered(kept, |sizes|) && first <= start <= |sizes|
    ensures forall w | w in plan :: w.index < |sizes|
  {
    Plan(sizes, begins, kept) + Stretch(first, start, true)
  }

  lemma EnoughFinds(sizes: seq<nat>, begins: seq<nat>, kept: seq<Segment>, start: nat)
    requires |begins| == |sizes| && Ordered(kept, |sizes|) && NeverBackwards(sizes, begins)
    requires KeptUpTo(kept) <= start < |sizes| && begins[start] <= Carried(sizes, 0, start)
    ensures AlwaysFinds(sizes, WithFrom(sizes, begins, kept, FirstCarrier(sizes, begins, KeptUpTo(kept), start), start), start, begins[start])
  {
    var first := FirstCarrier(sizes, begins, KeptUpTo(kept), start);
    var plan := WithFrom(sizes, begins, kept, first, start);
    var was := PlanCovers(sizes, begins, kept);
    var lo := CarriersReach(sizes, begins, Plan(sizes, begins, kept), was, KeptUpTo(kept), Segment(start, start, 0));
    hide FirstCarrier, NeverBackwards, Plan;
    assert EndsWith(plan, lo, start) && Within(sizes, begins, lo, start);
    forall data: seq<seq<byte>> | Sizes(data) == sizes
      ensures Finds(data, plan, start, begins[start])
    {
      assert |data| == |sizes|;
      CarriedIsLength(data, lo, start);
      SameTail(data, plan, lo, start, begins[start]);
    }
  }

  lemma OutputIs(data: seq<seq<byte>>, sizes: seq<nat>, begins: seq<nat>, kept: seq<Segment>, g: nat, start: nat)
    requires |begins| == |sizes| == |data| && Ordered(kept, |sizes|) && g <= start <= |sizes|
    ensures Flatten(OutData(data, WithFrom(sizes, begins, kept, g, start)))
            == Flatten(OutData(data, Plan(sizes, begins, kept))) + Flatten(data[g..start])
  {
    hide Plan, Flatten;
    OutJoins(data, Plan(sizes, begins, kept), Stretch(g, start, true));
    OutOfStretch(data, g, start, true);
  }

  lemma StretchSplits(data: seq<seq<byte>>, first: nat, g: nat, start: nat)
    requires first <= g <= start <= |data|
    ensures Flatten(data[first..start]) == Flatten(data[first..g]) + Flatten(data[g..start])
  {
    assert data[first..start] == data[first..g] + data[g..start];
    FlattenAppend(data[first..g], data[g..start]);
  }

  /** Carriers that carry nothing may as well be left out. */
  lemma EmptyOnesDoNothing(sizes: seq<nat>, begins: seq<nat>, kept: seq<Segment>, first: nat, g: nat, start: nat, n: nat)
    requires |begins| == |sizes| && Ordered(kept, |sizes|) && first <= g <= start <= |sizes|
    requires Carried(sizes, first, g) == 0 && AlwaysFinds(sizes, WithFrom(sizes, begins, kept, first, start), start, n)
    ensures AlwaysFinds(sizes, WithFrom(sizes, begins, kept, g, start), start, n)
  {
    hide Flatten, OutData, WithFrom, Carried;
    forall data: seq<seq<byte>> | Sizes(data) == sizes
      ensures Finds(data, WithFrom(sizes, begins, kept, g, start), start, n)
    {
      assert |data| == |sizes| && Finds(data, WithFrom(sizes, begins, kept, first, start), start, n);
      OutputIs(data, sizes, begins, kept, first, start);
      OutputIs(data, sizes, begins, kept, g, start);
      StretchSplits(data, first, g, start);
      CarriedIsLength(data, first, g);
      assert Flatten(data[first..start]) == Flatten(data[g..start]);
    }
  }

  // ---- a file in which fewer do not do ----

  predicate All(s: seq<byte>, b: byte) {
    forall i | 0 <= i < |s| :: s[i] == b
  }

  lemma {:induction false} FlattenAll(ss: seq<seq<byte>>, b: byte)
    requires forall s | s in ss :: All(s, b)
    ensures All(Flatten(ss), b)
  {
    if ss != [] {
      assert ss[0] in ss;
      FlattenAll(ss[1..], b);
    }
  }

  /** Zeros in the frames before from, ones in the others. */
  function Marked(sizes: seq<nat>, from: nat): (data: seq<seq<byte>>)
    ensures Sizes(data) == sizes
    ensures forall i | 0 <= i < |sizes| :: All(data[i], if i < from then 0 else 1)
  {
    var data := seq(|sizes|, i requires 0 <= i < |sizes| => seq(sizes[i], _ => if i < from then 0 else 1));
    assert forall i | 0 <= i < |sizes| :: |data[i]| == sizes[i];
    data
  }

  /** Ending alike for d bytes, and differing in the one before. */
  lemma DifferBefore(out: seq<byte>, home: seq<byte>, d: nat, n: nat)
    requires d < n <= |out| && n <= |home| && out[|out| - d - 1] != home[|home| - d - 1]
    ensures Last(out, n) != Last(home, n)
  {
    assert Last(out, n)[n - d - 1] == out[|out| - d - 1];
    assert Last(home, n)[n - d - 1] == home[|home| - d - 1];
  }

  lemma FewerMiss(sizes: seq<nat>, begins: seq<nat>, kept: seq<Segment>, first: nat, g: nat, start: nat)
    requires |begins| == |sizes| && Ordered(kept, |sizes|)
    requires KeptUpTo(kept) <= first <= g <= start < |sizes|
    requires Carried(sizes, first, g) > 0 && Carried(sizes, g, start) < begins[start]
    ensures !AlwaysFinds(sizes, WithFrom(sizes, begins, kept, g, start), start, begins[start])
  {
    hide *;
    var data := Marked(sizes, KeptUpTo(kept));
    SameCount(data, sizes);
    MarkedOutput(sizes, begins, kept, data, g, start);
    MarkedHome(sizes, KeptUpTo(kept), data, first, g, start);
    Missed(sizes, data, WithFrom(sizes, begins, kept, g, start), start, begins[start], Carried(sizes, g, start));
  }

  lemma SameCount(data: seq<seq<byte>>, sizes: seq<nat>)
    requires Sizes(data) == sizes
    ensures |data| == |sizes|
  {
  }

  /** A file whose output ends like home for d bytes, and then not. */
  lemma Missed(sizes: seq<nat>, data: seq<seq<byte>>, plan: seq<Written>, k: nat, n: nat, d: nat)
    requires Sizes(data) == sizes && (forall w | w in plan :: w.index < |data| == |sizes|) && k <= |data| && d < n
    requires d <= |Flatten(OutData(data, plan))|
    requires d < |Flatten(OutData(data, plan))| ==> Flatten(OutData(data, plan))[|Flatten(OutData(data, plan))| - d - 1] == 0
    requires d < |Flatten(data[..k])| && Flatten(data[..k])[|Flatten(data[..k])| - d - 1] == 1
    ensures !AlwaysFinds(sizes, plan, k, n)
  {
    hide Flatten, OutData, Last;
    var out, home := Flatten(OutData(data, plan)), Flatten(data[..k]);
    if n <= |out| && n <= |home| {
      DifferBefore(out, home, d, n);
    }
    assert !Finds(data, plan, k, n);
  }

  /** In the output, the byte before the carriers' is a zero, if there is one. */
  lemma MarkedOutput(sizes: seq<nat>, begins: seq<nat>, kept: seq<Segment>, data: seq<seq<byte>>, g: nat, start: nat)
    requires |begins| == |sizes| && Ordered(kept, |sizes|) && g <= start <= |sizes|
    requires data == Marked(sizes, KeptUpTo(kept)) && |data| == |sizes|
    ensures var out, d := Flatten(OutData(data, WithFrom(sizes, begins, kept, g, start))), Carried(sizes, g, start);
            d <= |out| && (d < |out| ==> out[|out| - d - 1] == 0)
  {
    var done := Plan(sizes, begins, kept);
    PlanStaysBelow(sizes, begins, kept);
    OutputIs(data, sizes, begins, kept, g, start);
    forall s | s in OutData(data, done)
      ensures All(s, 0)
    {
      var i :| 0 <= i < |done| && OutData(data, done)[i] == s;
      assert done[i] in done;
    }
    FlattenAll(OutData(data, done), 0);
    CarriedIsLength(data, g, start);
  }

  /** At home it is a one. */
  lemma MarkedHome(sizes: seq<nat>, from: nat, data: seq<seq<byte>>, first: nat, g: nat, start: nat)
    requires from <= first <= g <= start <= |sizes| && Carried(sizes, first, g) > 0
    requires data == Marked(sizes, from) && |data| == |sizes|
    ensures var home, d := Flatten(data[..start]), Carried(sizes, g, start);
            d < |home| && home[|home| - d - 1] == 1
  {
    forall s | s in data[first..g]
      ensures All(s, 1)
    {
      var i :| 0 <= i < |data[first..g]| && data[first..g][i] == s;
      assert s == data[first + i];
    }
    FlattenAll(data[first..g], 1);
    CarriedIsLength(data, first, g);
    CarriedIsLength(data, g, start);
    StretchSplits(data, 0, first, start);
    StretchSplits(data, first, g, start);
    assert data[0..start] == data[..start];
  }

  /** With carriers from a later frame on, the frame at the cut finds what it
      borrowed, whatever bytes the frames hold, exactly when those left out
      carry nothing. */
  lemma FewestThatDo(sizes: seq<nat>, begins: seq<nat>, kept: seq<Segment>, g: nat, start: nat)
    requires |begins| == |sizes| && Ordered(kept, |sizes|) && NeverBackwards(sizes, begins)
    requires KeptUpTo(kept) <= start < |sizes| && begins[start] <= Carried(sizes, 0, start)
    requires FirstCarrier(sizes, begins, KeptUpTo(kept), start) <= g <= start
    ensures AlwaysFinds(sizes, WithFrom(sizes, begins, kept, g, start), start, begins[start])
            <==> Carried(sizes, FirstCarrier(sizes, begins, KeptUpTo(kept), start), g) == 0
  {
    var first := FirstCarrier(sizes, begins, KeptUpTo(kept), start);
    if Carried(sizes, first, g) == 0 {
      EnoughFinds(sizes, begins, kept, start);
      EmptyOnesDoNothing(sizes, begins, kept, first, g, start, begins[start]);
    } else {
      assert Carried(sizes, g, start) < begins[start];
      FewerMiss(sizes, begins, kept, first, g, start);
    }
  }
}
