/** Layer III's bit reservoir across cuts. A frame's audio data may begin in
    the data of earlier frames; the data of all frames, end to end, is one
    stream (section 2.4.2.7 of ISO/IEC 11172-3, main_data_begin). Removed
    frames a kept one still borrows from stay, as silent carriers. */
module Reservoir {
  import opened Common

  /** Frames [start, end) of the home download. */
  datatype Segment = Segment(start: nat, end: nat, duration: nat)

  /** Some segment holds frame i. */
  ghost predicate HeldBy(segments: seq<Segment>, i: nat) {
    exists s | s in segments :: s.start <= i < s.end
  }

  /** What some segments play in all. */
  function Played(segments: seq<Segment>): (t: nat) {
    if segments == [] then 0 else Played(segments[..|segments| - 1]) + segments[|segments| - 1].duration
  }

  /** One frame of the output: a home frame copied, or kept as a carrier. */
  datatype Written = Written(index: nat, silent: bool)

  function Flatten(ss: seq<seq<byte>>): (s: seq<byte>) {
    if ss == [] then [] else ss[0] + Flatten(ss[1..])
  }

  lemma Associative(a: seq<byte>, b: seq<byte>, c: seq<byte>)
    ensures a + (b + c) == (a + b) + c
  {
  }

  lemma {:induction false} FlattenAppend(a: seq<seq<byte>>, b: seq<seq<byte>>)
    ensures Flatten(a + b) == Flatten(a) + Flatten(b)
  {
    if a == [] {
      assert a + b == b;
    } else {
      FlattenAppend(a[1..], b);
      assert (a + b)[1..] == a[1..] + b && (a + b)[0] == a[0];
      Associative(a[0], Flatten(a[1..]), Flatten(b));
    }
  }

  /** How many bytes of audio data frames [from, to) carry. */
  function Carried(sizes: seq<nat>, from: nat, to: nat): (n: nat)
    requires from <= to <= |sizes|
    decreases |sizes| - from
  {
    if from == to then 0 else (sizes[from] as int) + Carried(sizes, from + 1, to)
  }

  lemma {:induction false} CarriedSplit(sizes: seq<nat>, from: nat, mid: nat, to: nat)
    requires from <= mid <= to <= |sizes|
    ensures Carried(sizes, from, to) == Carried(sizes, from, mid) + Carried(sizes, mid, to)
    decreases mid - from
  {
    if from < mid {
      CarriedSplit(sizes, from + 1, mid, to);
    }
  }

  // ---- carriers ----

  /** Going back from first until frames [first, start) carry need bytes. */
  function CarryBack(sizes: seq<nat>, from: nat, first: nat, start: nat, need: nat): (r: nat)
    requires from <= first <= start <= |sizes|
    ensures from <= r <= first
    ensures r == from || Carried(sizes, r, start) >= need
    ensures forall g | r < g <= first :: Carried(sizes, g, start) < need
    decreases first
  {
    if Carried(sizes, first, start) < need && first > from
    then CarryBack(sizes, from, first - 1, start, need)
    else first
  }

  /** From which frame on the removed ones before start are carried along. */
  function FirstCarrier(sizes: seq<nat>, begins: seq<nat>, removedFrom: nat, start: nat): (first: nat)
    requires |begins| == |sizes|
    ensures first <= start
    ensures removedFrom <= start ==> removedFrom <= first
  {
    if start <= removedFrom || start >= |sizes| then start
    else CarryBack(sizes, removedFrom, start, start, begins[start])
  }

  /** As few carriers as hold the bytes frame start borrows: all the removed
      frames when even they don't, and no frame fewer than needed. */
  method Carriers(sizes: seq<nat>, begins: seq<nat>, removedFrom: nat, start: nat) returns (first: nat)
    requires |begins| == |sizes|
    ensures first == FirstCarrier(sizes, begins, removedFrom, start)
    ensures removedFrom < start < |sizes| ==>
              && removedFrom <= first <= start
              && (first == removedFrom || Carried(sizes, first, start) >= begins[start])
              && forall g | first < g <= start :: Carried(sizes, g, start) < begins[start]
  {
    if start <= removedFrom || start >= |sizes| {
      return start;
    }
    var need := begins[start];
    var carried := 0;
    first := start;
    while carried < need && first > removedFrom
      invariant removedFrom <= first <= start
      invariant carried == Carried(sizes, first, start)
      invariant CarryBack(sizes, removedFrom, first, start, need) == CarryBack(sizes, removedFrom, start, start, need)
    {
      first := first - 1;
      carried := carried + sizes[first];
    }
  }

  // ---- the output's frames ----

  /** Kept segments in order, disjoint, inside the file. */
  ghost predicate Ordered(kept: seq<Segment>, n: nat) {
    && (forall i | 0 <= i < |kept| :: kept[i].start <= kept[i].end <= n)
    && (forall i, j | 0 <= i < j < |kept| :: kept[i].end <= kept[j].start)
  }

  function Stretch(from: nat, to: nat, silent: bool): (w: seq<Written>)
    requires from <= to
    ensures |w| == to - from
  {
    seq(to - from, i requires 0 <= i < to - from => Written(from + i, silent))
  }

  function KeptUpTo(kept: seq<Segment>): nat {
    if kept == [] then 0 else kept[|kept| - 1].end
  }

  /** The frames written: each segment after the carriers it needs. */
  ghost function Plan(sizes: seq<nat>, begins: seq<nat>, kept: seq<Segment>): (plan: seq<Written>)
    requires |begins| == |sizes| && Ordered(kept, |sizes|)
    ensures forall w | w in plan :: w.index < |sizes|
  {
    if kept == [] then []
    else
      var last := kept[|kept| - 1];
      var before := kept[..|kept| - 1];
      Plan(sizes, begins, before) + PlanOne(sizes, begins, KeptUpTo(before), last)
  }

  function PlanOne(sizes: seq<nat>, begins: seq<nat>, keptUpTo: nat, s: Segment): (plan: seq<Written>)
    requires |begins| == |sizes| && s.start <= s.end <= |sizes|
    ensures forall w | w in plan :: w.index < |sizes|
  {
    var first := FirstCarrier(sizes, begins, keptUpTo, s.start);
    Stretch(first, s.start, true) + Stretch(s.start, s.end, false)
  }

  /** The frames written, in the order of the file. */
  ghost predicate Rising(plan: seq<Written>) {
    forall p, q | 0 <= p < q < |plan| :: plan[p].index < plan[q].index
  }

  /** What is written is in the order of the file, and what is copied is exactly
      the kept frames; the carriers among them are removed ones. */
  lemma {:induction false} PlanCopiesKept(sizes: seq<nat>, begins: seq<nat>, kept: seq<Segment>)
    requires |begins| == |sizes| && Ordered(kept, |sizes|)
    ensures var plan := Plan(sizes, begins, kept);
            && Rising(plan) && (forall w: Written | w in plan :: w.index < KeptUpTo(kept))
            && (forall i: nat :: Written(i, false) in plan <==> HeldBy(kept, i))
            && (forall w: Written | w in plan && w.silent :: !HeldBy(kept, w.index))
  {
    if kept != [] {
      var before, s := kept[..|kept| - 1], kept[|kept| - 1];
      PlanCopiesKept(sizes, begins, before);
      var plan, more := Plan(sizes, begins, before), PlanOne(sizes, begins, KeptUpTo(before), s);
      OneCopies(sizes, begins, KeptUpTo(before), s);
      hide PlanOne, HeldBy;
      RisingOn(plan, more, KeptUpTo(before), s.end);
      HeldOneMore(kept, before, s);
      forall i: nat
        ensures Written(i, false) in plan + more <==> HeldBy(kept, i)
      {
        assert Written(i, false) in plan + more <==> Written(i, false) in plan || Written(i, false) in more;
      }
      forall w: Written | w in plan + more && w.silent
        ensures !HeldBy(kept, w.index)
      {
        if HeldBy(kept, w.index) {
          OnlyOnce(plan + more, w);
        }
      }
    }
  }

  lemma OnlyOnce(plan: seq<Written>, w: Written)
    requires Rising(plan) && w in plan && w.silent
    ensures Written(w.index, false) !in plan
  {
  }

  lemma OneCopies(sizes: seq<nat>, begins: seq<nat>, keptUpTo: nat, s: Segment)
    requires |begins| == |sizes| && keptUpTo <= s.start <= s.end <= |sizes|
    ensures var more := PlanOne(sizes, begins, keptUpTo, s);
            && Rising(more) && (forall w: Written | w in more :: keptUpTo <= w.index < s.end)
            && forall i: nat :: Written(i, false) in more <==> s.start <= i < s.end
  {
    var first := FirstCarrier(sizes, begins, keptUpTo, s.start);
    var carriers, copies := Stretch(first, s.start, true), Stretch(s.start, s.end, false);
    hide FirstCarrier;
    assert PlanOne(sizes, begins, keptUpTo, s) == carriers + copies;
    forall i: nat
      ensures Written(i, false) in carriers + copies <==> s.start <= i < s.end
    {
      if s.start <= i < s.end {
        assert copies[i - s.start] == Written(i, false);
      }
    }
  }

  lemma RisingOn(plan: seq<Written>, more: seq<Written>, from: nat, to: nat)
    requires Rising(plan) && Rising(more) && from <= to
    requires (forall w: Written | w in plan :: w.index < from) && forall w: Written | w in more :: from <= w.index < to
    ensures Rising(plan + more) && forall w: Written | w in plan + more :: w.index < to
  {
    var all := plan + more;
    forall p, q | 0 <= p < q < |all|
      ensures all[p].index < all[q].index
    {
      assert p < |plan| ==> all[p] in plan;
      assert q >= |plan| ==> all[q] in more;
    }
  }

  lemma HeldOneMore(kept: seq<Segment>, before: seq<Segment>, s: Segment)
    requires kept == before + [s]
    ensures forall i: nat :: HeldBy(kept, i) <==> HeldBy(before, i) || s.start <= i < s.end
  {
    assert s in kept;
  }

  /** The written frames' audio data, in order. */
  function OutData(data: seq<seq<byte>>, plan: seq<Written>): (out: seq<seq<byte>>)
    requires forall w: Written | w in plan :: w.index < |data|
    ensures |out| == |plan|
  {
    seq(|plan|, i requires 0 <= i < |plan| => data[plan[i].index])
  }

  function Sizes(data: seq<seq<byte>>): (sizes: seq<nat>)
    ensures |sizes| == |data|
  {
    seq(|data|, i requires 0 <= i < |data| => |data[i]|)
  }

  /** In a well-formed stream no frame's data starts before its predecessor's. */
  ghost predicate NeverBackwards(sizes: seq<nat>, begins: seq<nat>)
    requires |begins| == |sizes|
  {
    forall k {:trigger begins[k + 1]} | 0 <= k < |begins| - 1 :: begins[k + 1] <= begins[k] + sizes[k]
  }

  /** The last n bytes. */
  function Last(s: seq<byte>, n: nat): seq<byte>
    requires n <= |s|
  {
    s[|s| - n..]
  }

  // ---- the proof ----

  /** The plan ends with frames lo to e, in order and without a gap. */
  ghost predicate EndsWith(plan: seq<Written>, lo: nat, e: nat) {
    lo <= e && e - lo <= |plan| && forall p | |plan| - (e - lo) <= p < |plan| :: plan[p].index == e - (|plan| - p)
  }

  /** Frame k's data starts no earlier than frame lo's own, or lo is the first. */
  ghost predicate Within(sizes: seq<nat>, begins: seq<nat>, lo: nat, k: nat)
    requires lo <= k < |sizes| == |begins|
  {
    lo == 0 || begins[k] <= Carried(sizes, lo, k)
  }

  /** If one frame's data starts in or after frame lo, so does every later one's. */
  lemma {:induction false} WithinLater(sizes: seq<nat>, begins: seq<nat>, lo: nat, s: nat, k: nat)
    requires |begins| == |sizes| && NeverBackwards(sizes, begins)
    requires lo <= s <= k < |sizes| && Within(sizes, begins, lo, s)
    ensures Within(sizes, begins, lo, k)
  {
    if s < k {
      WithinLater(sizes, begins, lo, s, k - 1);
      CarriedSplit(sizes, lo, k - 1, k);
      assert begins[k - 1 + 1] <= begins[k - 1] + sizes[k - 1];
    }
  }

  ghost predicate Covers(sizes: seq<nat>, begins: seq<nat>, plan: seq<Written>, lo: nat, e: nat)
    requires |begins| == |sizes|
  {
    EndsWith(plan, lo, e) && forall k | e <= k < |sizes| :: Within(sizes, begins, lo, k)
  }

  lemma StretchEnds(plan: seq<Written>, lo: nat, from: nat, to: nat, silent: bool)
    requires EndsWith(plan, lo, from) && from <= to
    ensures EndsWith(plan + Stretch(from, to, silent), lo, to)
  {
    var all := plan + Stretch(from, to, silent);
    forall p | |all| - (to - lo) <= p < |all|
      ensures all[p].index == to - (|all| - p)
    {
      if p < |plan| {
        assert plan[p].index == from - (|plan| - p);
      }
    }
  }

  /** Adding one segment's carriers: from some frame lo on the output now
      holds everything up to s.start, and no frame from there on reaches
      further back than lo. */
  lemma CarriersReach(sizes: seq<nat>, begins: seq<nat>, plan: seq<Written>, lo: nat, e: nat, s: Segment) returns (lo': nat)
    requires |begins| == |sizes| && NeverBackwards(sizes, begins)
    requires Covers(sizes, begins, plan, lo, e) && e <= s.start <= s.end <= |sizes|
    ensures Covers(sizes, begins, plan + Stretch(FirstCarrier(sizes, begins, e, s.start), s.start, true), lo', s.start)
  {
    var first := FirstCarrier(sizes, begins, e, s.start);
    if s.start == |sizes| {
      lo' := s.start;
    } else if first == e {
      lo' := lo;
      StretchEnds(plan, lo, e, s.start, true);
    } else {
      lo' := first;
      StretchEnds(plan, first, first, s.start, true);
      forall k | s.start <= k < |sizes|
        ensures Within(sizes, begins, first, k)
      {
        WithinLater(sizes, begins, first, s.start, k);
      }
    }
  }

  lemma NothingCovers(sizes: seq<nat>, begins: seq<nat>)
    requires |begins| == |sizes|
    ensures Covers(sizes, begins, [], 0, 0)
  {
  }

  /** After any number of segments the output ends with an unbroken stretch of
      home frames that no later frame reaches back beyond. */
  lemma {:induction false} PlanCovers(sizes: seq<nat>, begins: seq<nat>, kept: seq<Segment>) returns (lo: nat)
    requires |begins| == |sizes| && Ordered(kept, |sizes|) && NeverBackwards(sizes, begins)
    ensures Covers(sizes, begins, Plan(sizes, begins, kept), lo, KeptUpTo(kept))
  {
    hide Stretch, FirstCarrier, EndsWith, Within, Carried, NeverBackwards;
    lo := 0;
    if kept == [] {
      NothingCovers(sizes, begins);
    } else {
      var before, s := kept[..|kept| - 1], kept[|kept| - 1];
      var was := PlanCovers(sizes, begins, before);
      var plan := Plan(sizes, begins, before);
      lo := CarriersReach(sizes, begins, plan, was, KeptUpTo(before), s);
      var first := FirstCarrier(sizes, begins, KeptUpTo(before), s.start);
      StretchEnds(plan + Stretch(first, s.start, true), lo, s.start, s.end, false);
      assert plan + Stretch(first, s.start, true) + Stretch(s.start, s.end, false) == Plan(sizes, begins, kept);
    }
  }

  lemma MiddlePart(a: seq<Written>, b: seq<Written>, c: seq<Written>, j: nat)
    requires |a| <= j < |a| + |b|+ |c|
    ensures j < |a| + |b| ==> (a + (b + c))[j] == b[j - |a|]
  {
  }

  /** The same for a frame of the segment just added. */
  lemma NewFrameReach(sizes: seq<nat>, begins: seq<nat>, done: seq<Written>, was: nat, e: nat, s: Segment, j: nat) returns (lo: nat)
    requires |begins| == |sizes| && NeverBackwards(sizes, begins)
    requires Covers(sizes, begins, done, was, e) && e <= s.start <= s.end <= |sizes|
    requires |done| <= j < |done + PlanOne(sizes, begins, e, s)| && !(done + PlanOne(sizes, begins, e, s))[j].silent
    ensures var plan := done + PlanOne(sizes, begins, e, s);
            var k := plan[j].index;
            k < |sizes| && EndsWith(plan[..j], lo, k) && Within(sizes, begins, lo, k)
  {
    lo := CarriersReach(sizes, begins, done, was, e, s);
    var carriers := Stretch(FirstCarrier(sizes, begins, e, s.start), s.start, true);
    var plan := done + PlanOne(sizes, begins, e, s);
    var copied := j - |done| - |carriers|;
    MiddlePart(done, carriers, Stretch(s.start, s.end, false), j);
    StretchEnds(done + carriers, lo, s.start, s.start + copied, false);
    assert plan[..j] == done + carriers + Stretch(s.start, s.start + copied, false);
  }

  /** Where a kept frame is written, everything it borrows comes right before it. */
  lemma {:induction false} KeptFrameReach(sizes: seq<nat>, begins: seq<nat>, kept: seq<Segment>, j: nat) returns (lo: nat)
    requires |begins| == |sizes| && Ordered(kept, |sizes|) && NeverBackwards(sizes, begins)
    requires j < |Plan(sizes, begins, kept)| && !Plan(sizes, begins, kept)[j].silent
    ensures var k := Plan(sizes, begins, kept)[j].index;
            k < |sizes| && EndsWith(Plan(sizes, begins, kept)[..j], lo, k) && Within(sizes, begins, lo, k)
  {
    var before, s := kept[..|kept| - 1], kept[|kept| - 1];
    var done := Plan(sizes, begins, before);
    if j < |done| {
      lo := KeptFrameReach(sizes, begins, before, j);
      assert Plan(sizes, begins, kept)[..j] == done[..j];
    } else {
      var was := PlanCovers(sizes, begins, before);
      lo := NewFrameReach(sizes, begins, done, was, KeptUpTo(before), s, j);
    }
  }

  lemma {:induction false} CarriedIsLength(data: seq<seq<byte>>, lo: nat, k: nat)
    requires lo <= k <= |data|
    ensures Carried(Sizes(data), lo, k) == |Flatten(data[lo..k])|
    decreases k - lo
  {
    if lo < k {
      CarriedIsLength(data, lo + 1, k);
      assert data[lo..k][0] == data[lo] && data[lo..k][1..] == data[lo + 1..k];
    }
  }

  /** An output ending with frames lo to k ends with their bytes. */
  lemma SameTail(data: seq<seq<byte>>, plan: seq<Written>, lo: nat, k: nat, n: nat)
    requires (forall w | w in plan :: w.index < |data|) && k <= |data|
    requires EndsWith(plan, lo, k) && n <= |Flatten(data[lo..k])|
    ensures n <= |Flatten(OutData(data, plan))| && n <= |Flatten(data[..k])|
    ensures Last(Flatten(OutData(data, plan)), n) == Last(Flatten(data[..k]), n)
  {
    var cut := |plan| - (k - lo);
    var out := OutData(data, plan);
    assert out[cut..] == data[lo..k] by {
      forall i | 0 <= i < k - lo
        ensures out[cut..][i] == data[lo..k][i]
      {
        assert plan[cut + i].index == lo + i;
      }
    }
    assert out == out[..cut] + data[lo..k];
    FlattenAppend(out[..cut], data[lo..k]);
    assert data[..k] == data[..lo] + data[lo..k];
    FlattenAppend(data[..lo], data[lo..k]);
  }

  /** The reservoir survives: in a well-formed stream, every kept frame whose
      borrowed bytes the home frames hold finds exactly those bytes right
      before it in the output's stream, however the cuts fall. */
  lemma BorrowedBytesSurvive(data: seq<seq<byte>>, begins: seq<nat>, kept: seq<Segment>, j: nat)
    requires |begins| == |data| && Ordered(kept, |data|) && NeverBackwards(Sizes(data), begins)
    requires j < |Plan(Sizes(data), begins, kept)| && !Plan(Sizes(data), begins, kept)[j].silent
    requires var k := Plan(Sizes(data), begins, kept)[j].index; begins[k] <= |Flatten(data[..k])|
    ensures var plan := Plan(Sizes(data), begins, kept);
            var k := plan[j].index;
            && begins[k] <= |Flatten(OutData(data, plan)[..j])|
            && Last(Flatten(OutData(data, plan)[..j]), begins[k]) == Last(Flatten(data[..k]), begins[k])
  {
    var plan := Plan(Sizes(data), begins, kept);
    var k := plan[j].index;
    var lo := KeptFrameReach(Sizes(data), begins, kept, j);
    CarriedIsLength(data, lo, k);
    SameTail(data, plan[..j], lo, k, begins[k]);
    assert OutData(data, plan[..j]) == OutData(data, plan)[..j];
  }
}
