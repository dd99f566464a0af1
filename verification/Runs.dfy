/** Runs of frames two downloads share, and the stages that find them:
    a longest increasing subsequence of anchors, their extension into runs,
    the byte check, and the trim to splice points. */
module Runs {
  import opened Common

  /** One audio frame as the diff sees it: its bytes, and how many bytes of
      audio data it borrows from earlier frames. */
  datatype Frame = Frame(bytes: seq<byte>, begin: nat)

  type Track = seq<Frame>

  /** home[home..home+length] are the frames other[other..other+length]. */
  datatype Run = Run(home: nat, other: nat, length: nat)

  function HomeOf(r: Run): int { r.home }

  /** Strictly increasing in both downloads. */
  ghost predicate Chain(s: seq<Run>) {
    forall p, q | 0 <= p < q < |s| :: s[p].home < s[q].home && s[p].other < s[q].other
  }

  ghost predicate DrawnFrom(s: seq<Run>, pool: seq<Run>) {
    forall p | 0 <= p < |s| :: s[p] in pool
  }

  // ---- inOrder: a longest increasing subsequence ----

  /** tails[k] is the anchor on top of pile k; the tops increase. */
  ghost predicate Tops(s: seq<Run>, tails: seq<nat>, rank: seq<nat>)
    requires |rank| <= |s|
  {
    && (forall k | 0 <= k < |tails| :: tails[k] < |rank| && rank[tails[k]] == k)
    && (forall k, l | 0 <= k < l < |tails| :: s[tails[k]].other < s[tails[l]].other)
  }

  /** rank[j] is the pile anchor j went on; a pile's top is its least. */
  ghost predicate Piled(s: seq<Run>, tails: seq<nat>, rank: seq<nat>)
    requires |rank| <= |s| && Tops(s, tails, rank)
  {
    forall j | 0 <= j < |rank| :: rank[j] < |tails| && s[tails[rank[j]]].other <= s[j].other
  }

  /** previous[j] was the top of the pile before anchor j's. */
  ghost predicate Linked(s: seq<Run>, previous: seq<int>, rank: seq<nat>)
    requires |rank| <= |s| && |rank| <= |previous|
  {
    forall j | 0 <= j < |rank| && rank[j] > 0 ::
      0 <= previous[j] < j && rank[previous[j]] == rank[j] - 1 && s[previous[j]].other < s[j].other
  }

  /** An anchor that could follow another in a chain is on a later pile. */
  ghost predicate Climbing(s: seq<Run>, rank: seq<nat>)
    requires |rank| <= |s|
  {
    forall a, b | 0 <= a < b < |rank| && s[a].other < s[b].other :: rank[a] < rank[b]
  }

  /** The first pile whose top is not below value, by binary search. */
  method SearchPile(s: seq<Run>, tails: seq<nat>, value: nat) returns (k: nat)
    requires forall p | 0 <= p < |tails| :: tails[p] < |s|
    requires forall p, q | 0 <= p < q < |tails| :: s[tails[p]].other < s[tails[q]].other
    ensures k <= |tails|
    ensures forall p | 0 <= p < k :: s[tails[p]].other < value
    ensures forall p | k <= p < |tails| :: value <= s[tails[p]].other
  {
    var i, j := 0, |tails|;
    while i < j
      invariant 0 <= i <= j <= |tails|
      invariant forall p | 0 <= p < i :: s[tails[p]].other < value
      invariant forall p | j <= p < |tails| :: value <= s[tails[p]].other
    {
      var h := (i + j) / 2;
      if s[tails[h]].other >= value {
        j := h;
      } else {
        i := h + 1;
      }
    }
    k := i;
  }

  /** Placing the next anchor on the first pile whose top isn't below it. */
  function Placed(tails: seq<nat>, k: nat, i: nat): (r: seq<nat>)
    requires k <= |tails|
    ensures |r| == if k == |tails| then k + 1 else |tails|
    ensures forall p | 0 <= p < |r| :: r[p] == if p == k then i else tails[p]
  {
    if k == |tails| then tails + [i] else tails[k := i]
  }

  lemma PlaceKeepsTops(s: seq<Run>, tails: seq<nat>, rank: seq<nat>, k: nat)
    requires |rank| < |s| && Tops(s, tails, rank) && k <= |tails|
    requires forall p | 0 <= p < k :: s[tails[p]].other < s[|rank|].other
    requires forall p | k <= p < |tails| :: s[|rank|].other <= s[tails[p]].other
    ensures Tops(s, Placed(tails, k, |rank|), rank + [k])
  {
    hide Placed;
    var tails' := Placed(tails, k, |rank|);
    forall p, q | 0 <= p < q < |tails'|
      ensures s[tails'[p]].other < s[tails'[q]].other
    {
      if q < |tails| {
        assert s[tails[p]].other < s[tails[q]].other;
      }
    }
  }

  lemma PlaceKeepsPiled(s: seq<Run>, tails: seq<nat>, rank: seq<nat>, k: nat)
    requires |rank| < |s| && Tops(s, tails, rank) && Piled(s, tails, rank) && k <= |tails|
    requires Tops(s, Placed(tails, k, |rank|), rank + [k])
    requires forall p | k <= p < |tails| :: s[|rank|].other <= s[tails[p]].other
    ensures Piled(s, Placed(tails, k, |rank|), rank + [k])
  {
    hide Placed;
    var tails', rank' := Placed(tails, k, |rank|), rank + [k];
    forall j | 0 <= j < |rank'|
      ensures rank'[j] < |tails'| && s[tails'[rank'[j]]].other <= s[j].other
    {
      if j < |rank| {
        assert rank[j] < |tails| && s[tails[rank[j]]].other <= s[j].other;
      }
    }
  }

  lemma PlaceKeepsClimbing(s: seq<Run>, tails: seq<nat>, rank: seq<nat>, k: nat)
    requires |rank| < |s| && Tops(s, tails, rank) && Piled(s, tails, rank) && Climbing(s, rank)
    requires k <= |tails|
    requires forall p | k <= p < |tails| :: s[|rank|].other <= s[tails[p]].other
    ensures Climbing(s, rank + [k])
  {
    var rank' := rank + [k];
    forall a, b | 0 <= a < b < |rank'| && s[a].other < s[b].other
      ensures rank'[a] < rank'[b]
    {
      if b == |rank| {
        assert s[tails[rank[a]]].other <= s[a].other;
      }
    }
  }

  lemma PlaceKeepsLinked(s: seq<Run>, tails: seq<nat>, rank: seq<nat>, k: nat, previous: seq<int>)
    requires |rank| < |s| == |previous| && Tops(s, tails, rank) && Linked(s, previous, rank)
    requires k <= |tails|
    requires forall p | 0 <= p < k :: s[tails[p]].other < s[|rank|].other
    ensures Linked(s, previous[|rank| := if k > 0 then tails[k - 1] else -1], rank + [k])
  {
  }

  /** Ranks climb along any chain, so none is longer than the piles are many. */
  lemma {:induction false} ChainClimbs(s: seq<Run>, rank: seq<nat>, chain: seq<Run>) returns (at: nat)
    requires |rank| == |s| && Climbing(s, rank)
    requires SortedBy(s, HomeOf)
    requires Chain(chain) && DrawnFrom(chain, s) && chain != []
    ensures at < |s| && s[at] == chain[|chain| - 1] && rank[at] >= |chain| - 1
  {
    var m := |chain| - 1;
    assert chain[m] in s;
    at :| 0 <= at < |s| && s[at] == chain[m];
    if m > 0 {
      var shorter := chain[..m];
      forall p | 0 <= p < |shorter|
        ensures shorter[p] in s
      {
        assert shorter[p] == chain[p];
      }
      var before := ChainClimbs(s, rank, shorter);
      assert s[before] == chain[m - 1];
      assert s[before].home < s[at].home;
      assert before < at;
    }
  }

  lemma NoLongerChain(s: seq<Run>, tails: seq<nat>, rank: seq<nat>, anchors: seq<Run>)
    requires |rank| == |s| && Tops(s, tails, rank) && Piled(s, tails, rank) && Climbing(s, rank)
    requires SortedBy(s, HomeOf)
    requires forall r :: r in s <==> r in anchors
    ensures forall chain | Chain(chain) && DrawnFrom(chain, anchors) :: |chain| <= |tails|
  {
    forall chain | Chain(chain) && DrawnFrom(chain, anchors)
      ensures |chain| <= |tails|
    {
      if chain != [] {
        assert DrawnFrom(chain, s);
        var at := ChainClimbs(s, rank, chain);
        assert rank[at] < |tails|;
      }
    }
  }

  /** Following the back pointers from the last pile's top. */
  method WalkBack(s: seq<Run>, tails: seq<nat>, previous: array<int>, ghost rank: seq<nat>) returns (result: seq<Run>)
    requires |rank| == |s| == previous.Length && tails != []
    requires Tops(s, tails, rank) && Linked(s, previous[..], rank)
    requires SortedBy(s, HomeOf)
    ensures |result| == |tails| && DrawnFrom(result, s)
    ensures forall p, q | 0 <= p < q < |result| :: result[p].home <= result[q].home && result[p].other < result[q].other
  {
    var i := tails[|tails| - 1];
    var k := |tails| - 1;
    result := [s[i]];
    while k > 0
      invariant 0 <= k < |tails| && 0 <= i < |s| && rank[i] == k
      invariant |result| == |tails| - k && result[0] == s[i]
      invariant DrawnFrom(result, s)
      invariant forall p, q | 0 <= p < q < |result| :: result[p].home <= result[q].home && result[p].other < result[q].other
    {
      var j := previous[i];
      assert s[j].home <= s[i].home && s[j].other < s[i].other;
      i, k := j, k - 1;
      result := [s[i]] + result;
    }
  }

  ghost predicate Piles(s: seq<Run>, tails: seq<nat>, previous: seq<int>, rank: seq<nat>) {
    && |rank| <= |s| == |previous|
    && Tops(s, tails, rank) && Piled(s, tails, rank) && Linked(s, previous, rank) && Climbing(s, rank)
  }

  /** One turn of the loop: where anchor i goes, and what comes before it. */
  method PlaceOne(s: seq<Run>, i: nat, tails: seq<nat>, previous: array<int>, ghost rank: seq<nat>)
    returns (tails': seq<nat>, ghost rank': seq<nat>)
    requires i == |rank| < |s| && Piles(s, tails, previous[..], rank)
    modifies previous
    ensures |rank'| == i + 1 && Piles(s, tails', previous[..], rank')
  {
    var k := SearchPile(s, tails, s[i].other);
    hide Tops, Piled, Linked, Climbing, Placed;
    rank' := rank + [k];
    PlaceKeepsTops(s, tails, rank, k);
    PlaceKeepsPiled(s, tails, rank, k);
    PlaceKeepsClimbing(s, tails, rank, k);
    PlaceKeepsLinked(s, tails, rank, k, previous[..]);
    ghost var linked := previous[..][i := if k > 0 then tails[k - 1] else -1];
    previous[i] := if k > 0 then tails[k - 1] else -1;
    assert previous[..] == linked;
    tails' := Placed(tails, k, i);
  }

  /** The pile each anchor goes on, and the back pointers. */
  method Place(s: seq<Run>, previous: array<int>) returns (tails: seq<nat>, ghost rank: seq<nat>)
    requires previous.Length == |s|
    modifies previous
    ensures |rank| == |s| && Piles(s, tails, previous[..], rank)
  {
    tails, rank := [], [];
    for i := 0 to |s|
      invariant |rank| == i && Piles(s, tails, previous[..], rank)
    {
      tails, rank := PlaceOne(s, i, tails, previous, rank);
    }
  }

  /** The anchors kept are in order in both downloads, and no chain of
      anchors in order in both is longer. */
  method InOrder(anchors: seq<Run>) returns (result: seq<Run>)
    ensures DrawnFrom(result, anchors)
    ensures forall p, q | 0 <= p < q < |result| :: result[p].home <= result[q].home && result[p].other < result[q].other
    ensures DistinctBy(anchors, HomeOf) ==> Chain(result)
    ensures forall chain | Chain(chain) && DrawnFrom(chain, anchors) :: |chain| <= |result|
  {
    hide Chain, Tops, Linked, Piled, Climbing, DistinctBy, SortedBy;
    var s := Sort(anchors, HomeOf);
    SameElements(s, anchors);
    var previous := new int[|s|];
    var tails, rank := Place(s, previous);
    NoLongerChain(s, tails, rank, anchors);
    if |tails| == 0 {
      NoneIsChain();
      return [];
    }
    result := WalkBack(s, tails, previous, rank);
    if DistinctBy(anchors, HomeOf) {
      PermutedDistinct(anchors, s, HomeOf);
      DistinctInOrder(s, result);
    }
  }

  lemma NoneIsChain()
    ensures Chain([])
  {
  }

  lemma DistinctInOrder(s: seq<Run>, result: seq<Run>)
    requires DistinctBy(s, HomeOf) && DrawnFrom(result, s)
    requires forall p, q | 0 <= p < q < |result| :: result[p].home <= result[q].home && result[p].other < result[q].other
    ensures Chain(result)
  {
    forall p, q | 0 <= p < q < |result|
      ensures result[p].home < result[q].home
    {
      assert result[p] in s && result[q] in s;
      var i :| 0 <= i < |s| && s[i] == result[p];
      var j :| 0 <= j < |s| && s[j] == result[q];
      assert i != j;
    }
  }
}
