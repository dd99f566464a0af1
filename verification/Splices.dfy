/** Two downloads of one show, spliced at one place: the same audio before it
    and after it, and at it what either has of its own. What the alignment
    makes of them, hash by hash. */
module Splices {
  import opened Runs
  import opened Alignment

  /** The group of frames at i. */
  function Group(s: seq<int>, i: nat): (g: seq<int>)
    requires i + 16 <= |s|
  {
    s[i..i + 16]
  }

  /** The group at i occurs nowhere else in s. */
  ghost predicate OnlyAt(s: seq<int>, i: nat) {
    i + 16 <= |s| && forall k: nat | k + 16 <= |s| && k != i :: Group(s, k) != Group(s, i)
  }

  /** The gram tells the groups of either download apart. */
  ghost predicate TellsApart(gram: seq<int> -> int, s: seq<int>, t: seq<int>) {
    forall i: nat, j: nat | i + 16 <= |s| && j + 16 <= |t| && gram(Group(s, i)) == gram(Group(t, j)) :: Group(s, i) == Group(t, j)
  }

  /** Which it also does within each. */
  ghost predicate Tells(gram: seq<int> -> int, home: seq<int>, other: seq<int>) {
    TellsApart(gram, home, home) && TellsApart(gram, other, other) && TellsApart(gram, home, other)
  }

  lemma GramAt(s: seq<int>, gram: seq<int> -> int, i: nat)
    ensures i + 16 <= |s| <==> i < |Grams(s, gram)|
    ensures i + 16 <= |s| ==> Grams(s, gram)[i] == gram(Group(s, i))
  {
  }

  lemma OnceIsOnlyAt(s: seq<int>, gram: seq<int> -> int, i: nat)
    requires TellsApart(gram, s, s)
    ensures Once(Grams(s, gram), i) <==> OnlyAt(s, i)
  {
    GramAt(s, gram, i);
    forall k: nat
      ensures k + 16 <= |s| <==> k < |Grams(s, gram)|
      ensures k + 16 <= |s| ==> Grams(s, gram)[k] == gram(Group(s, k))
    {
      GramAt(s, gram, k);
    }
    hide Grams;
    if OnlyAt(s, i) {
      forall k | 0 <= k < |Grams(s, gram)| && k != i
        ensures Grams(s, gram)[k] != Grams(s, gram)[i]
      {
        assert Group(s, k) != Group(s, i);
      }
    }
    if Once(Grams(s, gram), i) {
      forall k: nat | k + 16 <= |s| && k != i
        ensures Group(s, k) != Group(s, i)
      {
        assert Grams(s, gram)[k] != Grams(s, gram)[i];
      }
    }
  }

  /** An anchor is a group both downloads have, each once. */
  lemma AnchorMeans(home: seq<int>, other: seq<int>, gram: seq<int> -> int, i: nat, j: nat)
    requires Tells(gram, home, other)
    ensures IsAnchor(Grams(home, gram), Grams(other, gram), i, j) <==> OnlyAt(home, i) && OnlyAt(other, j) && Group(home, i) == Group(other, j)
  {
    OnceIsOnlyAt(home, gram, i);
    OnceIsOnlyAt(other, gram, j);
    GramAt(home, gram, i);
    GramAt(other, gram, j);
    hide Grams;
  }

  // ---- shared audio is found ----

  /** A longest chain is not empty when there is an anchor; then neither are
      the runs grown from it. */
  lemma SharedIsFound(home: seq<int>, other: seq<int>, gram: seq<int> -> int, chain: seq<Run>, runs: seq<Run>, i: nat, j: nat)
    requires Tells(gram, home, other) && OnlyAt(home, i) && OnlyAt(other, j) && Group(home, i) == Group(other, j)
    requires forall better: seq<Run> | AnchorChain(Grams(home, gram), Grams(other, gram), better) :: |better| <= |chain|
    requires GrownInTurn(home, other, chain, runs)
    ensures chain != [] && runs != []
  {
    AnchorMeans(home, other, gram, i, j);
    hide Grams, IsAnchor, Tells, OnlyAt;
    var one := [Run(i, j, ANCHOR_FRAMES)];
    assert AnchorChain(Grams(home, gram), Grams(other, gram), one);
    NoneFromNone(home, other, chain, runs);
  }

  lemma {:induction false} NoneFromNone(home: seq<int>, other: seq<int>, chain: seq<Run>, runs: seq<Run>)
    requires GrownInTurn(home, other, chain, runs) && chain != []
    ensures runs != []
  {
    hide Extended;
  }

  /** Extending an anchor goes over equal hashes only. */
  lemma ExtendedIsEqual(home: seq<int>, other: seq<int>, a: Run, lowerHome: nat, lowerOther: nat, r: Run, x: nat)
    requires Extended(home, other, a, lowerHome, lowerOther, r) && a.length == 16 && a.home + 16 <= |home| && a.other + 16 <= |other|
    requires Group(home, a.home) == Group(other, a.other) && r.home <= x < r.home + r.length
    ensures x < |home| && x - r.home + r.other < |other| && home[x] == other[x - r.home + r.other]
  {
    if x < a.home {
      assert home[r.home..a.home][x - r.home] == other[r.other..a.other][x - r.home];
    } else if x < a.home + 16 {
      assert Group(home, a.home)[x - a.home] == Group(other, a.other)[x - a.home];
    } else {
      var k := x - a.home - 16;
      assert home[a.home + 16..r.home + r.length][k] == other[a.other + 16..r.other + r.length][k];
    }
  }

  /** Along every run grown from anchors the two downloads have equal hashes. */
  lemma GrownAreEqual(home: seq<int>, other: seq<int>, gram: seq<int> -> int, chain: seq<Run>, runs: seq<Run>, p: nat)
    requires Tells(gram, home, other) && AnchorChain(Grams(home, gram), Grams(other, gram), chain)
    requires p < |runs| && GrownFrom(home, other, chain, runs, p)
    ensures var r := runs[p]; r.home + r.length <= |home| && r.other + r.length <= |other|
    ensures forall x | runs[p].home <= x < runs[p].home + runs[p].length :: home[x] == other[x - runs[p].home + runs[p].other]
  {
    hide Extended, Tells, Grams, HomeEnd, OtherEnd;
    var a :| a in chain && Extended(home, other, a, HomeEnd(runs[..p]), OtherEnd(runs[..p]), runs[p]);
    AnchorIsEqual(home, other, gram, a);
    EqualThroughout(home, other, a, HomeEnd(runs[..p]), OtherEnd(runs[..p]), runs[p]);
  }

  lemma AnchorIsEqual(home: seq<int>, other: seq<int>, gram: seq<int> -> int, a: Run)
    requires Tells(gram, home, other) && IsAnchor(Grams(home, gram), Grams(other, gram), a.home, a.other)
    ensures a.home + 16 <= |home| && a.other + 16 <= |other| && Group(home, a.home) == Group(other, a.other)
  {
    AnchorMeans(home, other, gram, a.home, a.other);
    hide Tells, Grams, IsAnchor;
  }

  lemma EqualThroughout(home: seq<int>, other: seq<int>, a: Run, lowerHome: nat, lowerOther: nat, r: Run)
    requires Extended(home, other, a, lowerHome, lowerOther, r) && a.length == 16 && a.home + 16 <= |home| && a.other + 16 <= |other|
    requires Group(home, a.home) == Group(other, a.other)
    ensures r.home + r.length <= |home| && r.other + r.length <= |other|
    ensures forall x | r.home <= x < r.home + r.length :: home[x] == other[x - r.home + r.other]
  {
    assert r.home + r.length <= |home| && r.other + r.length <= |other|;
    hide Extended, Group;
    forall x | r.home <= x < r.home + r.length
      ensures home[x] == other[x - r.home + r.other]
    {
      ExtendedIsEqual(home, other, a, lowerHome, lowerOther, r, x);
    }
  }

  // ---- one splice ----

  /** What one download has of its own at the splice is nowhere in the other,
      nor in the show. */
  ghost predicate Own(x: seq<int>, a: seq<int>, y: seq<int>, b: seq<int>) {
    forall v | v in x :: v !in a && v !in y && v !in b
  }

  /** Positions that correspond: before the splice, or after it. */
  predicate Corresponds(a: seq<int>, x: seq<int>, y: seq<int>, i: nat, j: nat) {
    if x == [] && y == [] then i == j
    else (i == j && i + 16 <= |a|) || (i >= |a| + |x| && j >= |a| + |y| && i - |x| == j - |y|)
  }

  lemma OneOfThree(u: seq<int>, v: seq<int>, w: seq<int>, p: nat)
    requires p < |u + v + w|
    ensures (u + v + w)[p] in u || (u + v + w)[p] in v || (u + v + w)[p] in w
    ensures |u| <= p < |u| + |v| ==> (u + v + w)[p] in v
  {
    if p < |u| {
      assert (u + v + w)[p] == u[p];
    } else if p < |u| + |v| {
      assert (u + v + w)[p] == v[p - |u|];
    } else {
      assert (u + v + w)[p] == w[p - |u| - |v|];
    }
  }

  /** A group both have holds nothing of what is one's own. */
  lemma InShow(a: seq<int>, x: seq<int>, y: seq<int>, b: seq<int>, i: nat, j: nat)
    requires Own(x, a, y, b) && i + 16 <= |a + x + b| && j + 16 <= |a + y + b|
    requires Group(a + x + b, i) == Group(a + y + b, j)
    ensures x != [] ==> i + 16 <= |a| || i >= |a| + |x|
  {
    var k := if i < |a| < i + 16 then |a| - i else 0;
    OneOfThree(a, x, b, i + k);
    OneOfThree(a, y, b, j + k);
    assert (a + x + b)[i + k] == Group(a + x + b, i)[k];
    assert (a + y + b)[j + k] == Group(a + y + b, j)[k];
  }

  /** A group of the show is in both, where it corresponds. */
  lemma SameGroup(a: seq<int>, x: seq<int>, y: seq<int>, b: seq<int>, i: nat) returns (j: nat)
    requires i + 16 <= |a + x + b| && (i + 16 <= |a| || i >= |a| + |x|)
    ensures j + 16 <= |a + y + b| && Group(a + x + b, i) == Group(a + y + b, j)
    ensures j == if i + 16 <= |a| then i else i - |x| + |y|
  {
    j := if i + 16 <= |a| then i else i - |x| + |y|;
    var home, other := a + x + b, a + y + b;
    assert forall p | i <= p < i + 16 :: home[p] == other[p - i + j];
    assert Group(home, i) == Group(other, j);
  }

  /** Every anchor pairs positions that correspond. */
  lemma AnchorsCorrespond(a: seq<int>, x: seq<int>, y: seq<int>, b: seq<int>, i: nat, j: nat)
    requires Own(x, a, y, b) && Own(y, a, x, b)
    requires OnlyAt(a + x + b, i) && OnlyAt(a + y + b, j) && Group(a + x + b, i) == Group(a + y + b, j)
    ensures Corresponds(a, x, y, i, j)
  {
    InShow(a, x, y, b, i, j);
    InShow(a, y, x, b, j, i);
    hide Group, Own;
    if x == [] && y == [] {
      assert a + x + b == a + y + b;
    } else if x != [] {
      var k := SameGroup(a, x, y, b, i);
      assert k == j;
    } else {
      var k := SameGroup(a, y, x, b, j);
      assert k == i;
    }
  }

  lemma CorrespondInOrder(a: seq<int>, x: seq<int>, y: seq<int>, i: nat, j: nat, k: nat, l: nat)
    requires Corresponds(a, x, y, i, j) && Corresponds(a, x, y, k, l)
    ensures i < k ==> j < l
    ensures i == k ==> j == l
  {
  }

  /** The chain's anchors correspond, and any other anchor is among them. */
  ghost predicate ChainOf(a: seq<int>, x: seq<int>, y: seq<int>, b: seq<int>, chain: seq<Run>) {
    && Chain(chain)
    && (forall c | c in chain :: c.length == 16 && c.home + 16 <= |a + x + b| && c.other + 16 <= |a + y + b|
                                 && Corresponds(a, x, y, c.home, c.other))
    && forall i: nat, j: nat | OnlyAt(a + x + b, i) && OnlyAt(a + y + b, j) && Group(a + x + b, i) == Group(a + y + b, j) ::
         Run(i, j, 16) in chain
  }

  lemma InsertedAt(chain: seq<Run>, r: Run, p: nat)
    requires Chain(chain) && p <= |chain|
    requires forall q | 0 <= q < p :: chain[q].home < r.home && chain[q].other < r.other
    requires forall q | p <= q < |chain| :: r.home < chain[q].home && r.other < chain[q].other
    ensures Chain(chain[..p] + [r] + chain[p..])
  {
  }

  lemma Inserted(chain: seq<Run>, r: Run) returns (better: seq<Run>)
    requires Chain(chain) && r !in chain
    requires forall c | c in chain :: (c.home < r.home && c.other < r.other) || (r.home < c.home && r.other < c.other)
    ensures Chain(better) && |better| == |chain| + 1
    ensures forall c | c in better :: c in chain || c == r
  {
    var p := 0;
    while p < |chain| && chain[p].home < r.home
      invariant p <= |chain| && forall q | 0 <= q < p :: chain[q].home < r.home
    {
      p := p + 1;
    }
    forall q | 0 <= q < |chain|
      ensures if q < p then chain[q].home < r.home && chain[q].other < r.other
              else r.home < chain[q].home && r.other < chain[q].other
    {
      assert chain[q] in chain;
    }
    InsertedAt(chain, r, p);
    better := chain[..p] + [r] + chain[p..];
  }

  lemma LongestIsAll(a: seq<int>, x: seq<int>, y: seq<int>, b: seq<int>, gram: seq<int> -> int, chain: seq<Run>)
    requires Own(x, a, y, b) && Own(y, a, x, b) && Tells(gram, a + x + b, a + y + b)
    requires AnchorChain(Grams(a + x + b, gram), Grams(a + y + b, gram), chain)
    requires forall better: seq<Run> | AnchorChain(Grams(a + x + b, gram), Grams(a + y + b, gram), better) :: |better| <= |chain|
    ensures ChainOf(a, x, y, b, chain)
  {
    var home, other := a + x + b, a + y + b;
    hide Grams, Tells, Own, Group, IsAnchor, Corresponds;
    forall c | c in chain
      ensures c.length == 16 && c.home + 16 <= |home| && c.other + 16 <= |other| && Corresponds(a, x, y, c.home, c.other)
    {
      AnchorHere(a, x, y, b, gram, c.home, c.other);
    }
    forall i: nat, j: nat | OnlyAt(home, i) && OnlyAt(other, j) && Group(home, i) == Group(other, j)
      ensures Run(i, j, 16) in chain
    {
      if Run(i, j, 16) !in chain {
        var better := OneLonger(a, x, y, b, gram, chain, i, j);
      }
    }
  }

  /** A chain that lacks an anchor is not the longest. */
  lemma OneLonger(a: seq<int>, x: seq<int>, y: seq<int>, b: seq<int>, gram: seq<int> -> int, chain: seq<Run>, i: nat, j: nat)
      returns (better: seq<Run>)
    requires Own(x, a, y, b) && Own(y, a, x, b) && Tells(gram, a + x + b, a + y + b)
    requires AnchorChain(Grams(a + x + b, gram), Grams(a + y + b, gram), chain) && Run(i, j, 16) !in chain
    requires OnlyAt(a + x + b, i) && OnlyAt(a + y + b, j) && Group(a + x + b, i) == Group(a + y + b, j)
    ensures AnchorChain(Grams(a + x + b, gram), Grams(a + y + b, gram), better) && |better| == |chain| + 1
  {
    var home, other, r := a + x + b, a + y + b, Run(i, j, 16);
    AnchorMeans(home, other, gram, i, j);
    AnchorsCorrespond(a, x, y, b, i, j);
    hide Grams, Tells, Own, Group, IsAnchor, Corresponds;
    forall c | c in chain
      ensures (c.home < r.home && c.other < r.other) || (r.home < c.home && r.other < c.other)
    {
      AnchorHere(a, x, y, b, gram, c.home, c.other);
      CorrespondInOrder(a, x, y, c.home, c.other, i, j);
      CorrespondInOrder(a, x, y, i, j, c.home, c.other);
    }
    better := Inserted(chain, r);
  }

  lemma AnchorHere(a: seq<int>, x: seq<int>, y: seq<int>, b: seq<int>, gram: seq<int> -> int, i: nat, j: nat)
    requires Own(x, a, y, b) && Own(y, a, x, b) && Tells(gram, a + x + b, a + y + b)
    requires IsAnchor(Grams(a + x + b, gram), Grams(a + y + b, gram), i, j)
    ensures i + 16 <= |a + x + b| && j + 16 <= |a + y + b| && Corresponds(a, x, y, i, j)
  {
    AnchorMeans(a + x + b, a + y + b, gram, i, j);
    AnchorsCorrespond(a, x, y, b, i, j);
  }

  // ---- the runs ----

  /** The run before the splice, and the run after it. */
  function Before(a: seq<int>): Run { Run(0, 0, |a|) }

  function After(a: seq<int>, x: seq<int>, y: seq<int>, b: seq<int>): Run { Run(|a| + |x|, |a| + |y|, |b|) }

  /** What the two downloads share, as runs. */
  function Shared(a: seq<int>, x: seq<int>, y: seq<int>, b: seq<int>): (runs: seq<Run>) {
    if x == [] && y == [] then [Run(0, 0, |a| + |b|)]
    else (if a == [] then [] else [Before(a)]) + if b == [] then [] else [After(a, x, y, b)]
  }

  lemma WholeExtended(s: seq<int>, c: Run, r: Run)
    requires c.home == c.other && Extended(s, s, c, 0, 0, r)
    ensures r == Run(0, 0, |s|)
  {
  }

  /** Before the splice the downloads are the same; after it too, from where it ends. */
  lemma SameShow(a: seq<int>, x: seq<int>, y: seq<int>, b: seq<int>)
    ensures forall p | 0 <= p < |a| :: (a + x + b)[p] == (a + y + b)[p]
    ensures forall p | |a| + |x| <= p < |a + x + b| :: (a + x + b)[p] == (a + y + b)[p - |x| + |y|]
  {
  }

  /** Extending compares frame by frame, back from the anchor and on from it. */
  lemma ComparedEqual(home: seq<int>, other: seq<int>, c: Run, lowerHome: nat, lowerOther: nat, r: Run, p: nat)
    requires Extended(home, other, c, lowerHome, lowerOther, r)
    requires r.home <= p < c.home || c.home + c.length <= p < r.home + r.length
    ensures p < |home| && p - r.home + r.other < |other| && home[p] == other[p - r.home + r.other]
  {
    if p < c.home {
      assert home[r.home..c.home][p - r.home] == other[r.other..c.other][p - r.home];
    } else {
      var k := p - c.home - c.length;
      assert home[c.home + c.length..r.home + r.length][k] == other[c.other + c.length..r.other + r.length][k];
    }
  }

  lemma AtSplice(a: seq<int>, x: seq<int>, y: seq<int>, b: seq<int>)
    requires Own(x, a, y, b) && Own(y, a, x, b) && (x != [] || y != [])
    requires |a| < |a + x + b| && |a| < |a + y + b|
    ensures (a + x + b)[|a|] != (a + y + b)[|a|]
  {
    OneOfThree(a, x, b, |a|);
    OneOfThree(a, y, b, |a|);
    if x == [] {
      assert (a + x + b)[|a|] == b[0];
    }
    if y == [] {
      assert (a + y + b)[|a|] == b[0];
    }
  }

  /** An anchor before the splice grows to all that comes before it. */
  lemma BeforeExtended(a: seq<int>, x: seq<int>, y: seq<int>, b: seq<int>, c: Run, r: Run)
    requires Own(x, a, y, b) && Own(y, a, x, b) && (x != [] || y != [])
    requires c.home == c.other && c.length == 16 && c.home + 16 <= |a| && Extended(a + x + b, a + y + b, c, 0, 0, r)
    ensures r == Before(a)
  {
    SameShow(a, x, y, b);
    assert r.home == r.other == 0;
    hide Own;
    if r.length > |a| {
      ComparedEqual(a + x + b, a + y + b, c, 0, 0, r, |a|);
      AtSplice(a, x, y, b);
    }
  }

  /** Right before the end of the splice, if both have something there. */
  lemma BeforeEnd(a: seq<int>, x: seq<int>, y: seq<int>, b: seq<int>)
    requires Own(x, a, y, b) && x != [] && y != []
    ensures (a + x + b)[|a| + |x| - 1] != (a + y + b)[|a| + |y| - 1]
  {
    assert (a + x + b)[|a| + |x| - 1] == x[|x| - 1] && (a + y + b)[|a| + |y| - 1] == y[|y| - 1];
    assert x[|x| - 1] in x && y[|y| - 1] in y;
  }

  /** An anchor after the splice grows to all that comes after it. */
  lemma AfterExtended(a: seq<int>, x: seq<int>, y: seq<int>, b: seq<int>, c: Run, r: Run)
    requires Own(x, a, y, b) && c.length == 16
    requires c.home >= |a| + |x| && c.other >= |a| + |y| && c.home - |x| == c.other - |y|
    requires Extended(a + x + b, a + y + b, c, |a|, |a|, r)
    ensures r == After(a, x, y, b)
  {
    SameShow(a, x, y, b);
    hide Own;
    if r.home < |a| + |x| {
      ComparedEqual(a + x + b, a + y + b, c, |a|, |a|, r, |a| + |x| - 1);
      BeforeEnd(a, x, y, b);
    }
  }

  /** The anchor lies before the splice. */
  predicate IsBefore(a: seq<int>, c: Run) { c.home + 16 <= |a| }

  /** The runs after the first m anchors. */
  function UpTo(a: seq<int>, x: seq<int>, y: seq<int>, b: seq<int>, chain: seq<Run>, m: nat): seq<Run>
    requires m <= |chain|
  {
    if m == 0 then []
    else if IsBefore(a, chain[m - 1]) then [Before(a)]
    else (if a == [] then [] else [Before(a)]) + [After(a, x, y, b)]
  }

  /** Anchors one after another that correspond, the first before the splice if
      anything is. */
  ghost predicate Across(a: seq<int>, x: seq<int>, y: seq<int>, b: seq<int>, chain: seq<Run>) {
    && Chain(chain) && (x != [] || y != [])
    && (forall c | c in chain :: c.length == 16 && c.home + 16 <= |a + x + b| && c.other + 16 <= |a + y + b|
                                 && Corresponds(a, x, y, c.home, c.other))
    && (a != [] ==> chain != [] && IsBefore(a, chain[0]))
  }

  lemma CoveredUpTo(a: seq<int>, x: seq<int>, y: seq<int>, b: seq<int>, chain: seq<Run>, m: nat)
    requires Across(a, x, y, b, chain) && 0 < m <= |chain|
    ensures var c := chain[m - 1];
            Covered(UpTo(a, x, y, b, chain, m - 1), c)
            <==> m > 1 && (IsBefore(a, c) || !IsBefore(a, chain[m - 2]))
    ensures m > 1 && IsBefore(a, chain[m - 1]) ==> IsBefore(a, chain[m - 2])
  {
    var c := chain[m - 1];
    assert c in chain;
    if m > 1 {
      assert chain[m - 2] in chain;
    }
  }

  lemma NextRun(a: seq<int>, x: seq<int>, y: seq<int>, b: seq<int>, chain: seq<Run>, m: nat, r: Run)
    requires Own(x, a, y, b) && Own(y, a, x, b) && Across(a, x, y, b, chain) && 0 < m <= |chain|
    requires m == 1 || (!IsBefore(a, chain[m - 1]) && IsBefore(a, chain[m - 2]))
    requires var done := UpTo(a, x, y, b, chain, m - 1);
             Extended(a + x + b, a + y + b, chain[m - 1], HomeEnd(done), OtherEnd(done), r)
    ensures UpTo(a, x, y, b, chain, m - 1) + [r] == UpTo(a, x, y, b, chain, m)
  {
    var c := chain[m - 1];
    assert c in chain;
    hide Extended, Own;
    if IsBefore(a, c) {
      BeforeExtended(a, x, y, b, c, r);
    } else {
      AfterExtended(a, x, y, b, c, r);
    }
  }

  /** What became of anchor m. */
  lemma GrownAt(home: seq<int>, other: seq<int>, chain: seq<Run>, m: nat, runs: seq<Run>)
    requires 0 < m <= |chain| && GrownInTurn(home, other, chain[..m], runs)
    ensures || (Covered(runs, chain[m - 1]) && GrownInTurn(home, other, chain[..m - 1], runs))
            || (runs != []
                && var done := runs[..|runs| - 1];
                   && !Covered(done, chain[m - 1]) && GrownInTurn(home, other, chain[..m - 1], done)
                   && Extended(home, other, chain[m - 1], HomeEnd(done), OtherEnd(done), runs[|runs| - 1]))
  {
    hide Extended, Covered;
    assert chain[..m][..m - 1] == chain[..m - 1] && chain[..m][m - 1] == chain[m - 1];
  }

  lemma GrownFromNone(home: seq<int>, other: seq<int>, chain: seq<Run>, runs: seq<Run>)
    requires GrownInTurn(home, other, chain[..0], runs)
    ensures runs == []
  {
  }

  lemma NoneYet(a: seq<int>, x: seq<int>, y: seq<int>, b: seq<int>, chain: seq<Run>)
    ensures UpTo(a, x, y, b, chain, 0) == []
  {
  }

  lemma LastAdded(runs: seq<Run>)
    requires runs != []
    ensures runs == runs[..|runs| - 1] + [runs[|runs| - 1]]
  {
  }

  lemma {:induction false} GrownUpTo(a: seq<int>, x: seq<int>, y: seq<int>, b: seq<int>, chain: seq<Run>, m: nat, runs: seq<Run>)
    requires Own(x, a, y, b) && Own(y, a, x, b) && Across(a, x, y, b, chain) && m <= |chain|
    requires GrownInTurn(a + x + b, a + y + b, chain[..m], runs)
    ensures runs == UpTo(a, x, y, b, chain, m)
    decreases m
  {
    hide *;
    if m == 0 {
      GrownFromNone(a + x + b, a + y + b, chain, runs);
      NoneYet(a, x, y, b, chain);
    } else {
      GrownAt(a + x + b, a + y + b, chain, m, runs);
      CoveredUpTo(a, x, y, b, chain, m);
      if Covered(runs, chain[m - 1]) && GrownInTurn(a + x + b, a + y + b, chain[..m - 1], runs) {
        GrownUpTo(a, x, y, b, chain, m - 1, runs);
        SameUpTo(a, x, y, b, chain, m);
      } else {
        var done := runs[..|runs| - 1];
        GrownUpTo(a, x, y, b, chain, m - 1, done);
        NextRun(a, x, y, b, chain, m, runs[|runs| - 1]);
        LastAdded(runs);
      }
    }
  }

  lemma SameUpTo(a: seq<int>, x: seq<int>, y: seq<int>, b: seq<int>, chain: seq<Run>, m: nat)
    requires 1 < m <= |chain| && (IsBefore(a, chain[m - 1]) || !IsBefore(a, chain[m - 2]))
    requires IsBefore(a, chain[m - 1]) ==> IsBefore(a, chain[m - 2])
    ensures UpTo(a, x, y, b, chain, m - 1) == UpTo(a, x, y, b, chain, m)
  {
  }

  lemma {:induction false} WholeGrown(s: seq<int>, chain: seq<Run>, runs: seq<Run>)
    requires (forall c | c in chain :: c.home == c.other && c.home < |s|) && GrownInTurn(s, s, chain, runs)
    ensures runs == if chain == [] then [] else [Run(0, 0, |s|)]
  {
    if chain != [] {
      var before, c := chain[..|chain| - 1], chain[|chain| - 1];
      hide Extended;
      assert c in chain;
      if Covered(runs, c) && GrownInTurn(s, s, before, runs) {
        WholeGrown(s, before, runs);
      } else {
        WholeGrown(s, before, runs[..|runs| - 1]);
        assert runs[..|runs| - 1] == [];
        WholeExtended(s, c, runs[0]);
      }
    }
  }

  /** Before the splice, if there is anything, is a group that occurs once in
      each download; after it too. */
  ghost predicate Anchored(a: seq<int>, x: seq<int>, y: seq<int>, b: seq<int>) {
    && (a != [] ==> exists i: nat | i + 16 <= |a| :: OnlyAt(a + x + b, i) && OnlyAt(a + y + b, i))
    && (b != [] ==> exists i: nat | i >= |a| + |x| :: OnlyAt(a + x + b, i) && OnlyAt(a + y + b, i - |x| + |y|))
  }

  lemma SameGroups(a: seq<int>, x: seq<int>, y: seq<int>, b: seq<int>, i: nat)
    ensures i + 16 <= |a| ==> Group(a + x + b, i) == Group(a + y + b, i)
    ensures |a| + |x| <= i && i + 16 <= |a + x + b| ==> Group(a + x + b, i) == Group(a + y + b, i - |x| + |y|)
  {
    if i + 16 <= |a| {
      assert Group(a + x + b, i) == a[i..i + 16] == Group(a + y + b, i);
    }
    if |a| + |x| <= i && i + 16 <= |a + x + b| {
      var k := i - |a| - |x|;
      assert Group(a + x + b, i) == b[k..k + 16] == Group(a + y + b, i - |x| + |y|);
    }
  }

  /** The runs are exactly the show before the splice and the show after it. */
  lemma SharedExactly(a: seq<int>, x: seq<int>, y: seq<int>, b: seq<int>, gram: seq<int> -> int, chain: seq<Run>, runs: seq<Run>)
    requires Own(x, a, y, b) && Own(y, a, x, b) && Anchored(a, x, y, b) && a + b != [] && Tells(gram, a + x + b, a + y + b)
    requires AnchorChain(Grams(a + x + b, gram), Grams(a + y + b, gram), chain)
    requires forall better: seq<Run> | AnchorChain(Grams(a + x + b, gram), Grams(a + y + b, gram), better) :: |better| <= |chain|
    requires GrownInTurn(a + x + b, a + y + b, chain, runs)
    ensures runs == Shared(a, x, y, b)
  {
    hide *;
    LongestIsAll(a, x, y, b, gram, chain);
    ChainGrown(a, x, y, b, chain, runs);
  }

  lemma ChainGrown(a: seq<int>, x: seq<int>, y: seq<int>, b: seq<int>, chain: seq<Run>, runs: seq<Run>)
    requires Own(x, a, y, b) && Own(y, a, x, b) && Anchored(a, x, y, b) && a + b != []
    requires ChainOf(a, x, y, b, chain) && GrownInTurn(a + x + b, a + y + b, chain, runs)
    ensures runs == Shared(a, x, y, b)
  {
    hide GrownInTurn, Own, OnlyAt, Group;
    var some := AnchorOf(a, x, y, b, chain);
    if x == [] && y == [] {
      assert a + x + b == a + y + b && |a + x + b| == |a| + |b|;
      WholeGrown(a + x + b, chain, runs);
    } else {
      IsAcross(a, x, y, b, chain);
      assert chain[..|chain|] == chain;
      hide ChainOf, Anchored, Across, UpTo, Shared;
      AcrossIsShared(a, x, y, b, chain);
      GrownUpTo(a, x, y, b, chain, |chain|, runs);
    }
  }

  lemma FitsIn(s: seq<int>, i: nat)
    requires OnlyAt(s, i)
    ensures i + 16 <= |s|
  {
  }

  lemma AnchorOf(a: seq<int>, x: seq<int>, y: seq<int>, b: seq<int>, chain: seq<Run>) returns (c: Run)
    requires Anchored(a, x, y, b) && ChainOf(a, x, y, b, chain) && a + b != []
    ensures c in chain
    ensures a != [] ==> exists d | d in chain :: IsBefore(a, d)
    ensures b != [] ==> exists d | d in chain :: d.home >= |a| + |x|
  {
    hide OnlyAt, Group;
    if a != [] {
      var i: nat :| i + 16 <= |a| && OnlyAt(a + x + b, i) && OnlyAt(a + y + b, i);
      SameGroups(a, x, y, b, i);
      c := Run(i, i, 16);
      assert c in chain && IsBefore(a, c);
    }
    if b != [] {
      var i: nat :| i >= |a| + |x| && OnlyAt(a + x + b, i) && OnlyAt(a + y + b, i - |x| + |y|);
      FitsIn(a + x + b, i);
      SameGroups(a, x, y, b, i);
      c := Run(i, i - |x| + |y|, 16);
      assert c in chain && c.home >= |a| + |x|;
    }
  }

  lemma IsAcross(a: seq<int>, x: seq<int>, y: seq<int>, b: seq<int>, chain: seq<Run>)
    requires ChainOf(a, x, y, b, chain) && (x != [] || y != []) && chain != []
    requires a != [] ==> exists d | d in chain :: IsBefore(a, d)
    ensures Across(a, x, y, b, chain)
  {
    hide OnlyAt, Group, Corresponds;
    if a != [] {
      var d :| d in chain && IsBefore(a, d);
      var k :| 0 <= k < |chain| && chain[k] == d;
    }
  }

  lemma AcrossIsShared(a: seq<int>, x: seq<int>, y: seq<int>, b: seq<int>, chain: seq<Run>)
    requires Across(a, x, y, b, chain) && chain != []
    requires b != [] ==> exists d | d in chain :: d.home >= |a| + |x|
    ensures UpTo(a, x, y, b, chain, |chain|) == Shared(a, x, y, b)
  {
    var last := chain[|chain| - 1];
    assert last in chain && chain[0] in chain;
    if b != [] {
      var d :| d in chain && d.home >= |a| + |x|;
      var k :| 0 <= k < |chain| && chain[k] == d;
    }
  }
}
