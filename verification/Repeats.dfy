/** An ad the diff has removed in one place may come again inside a kept run. A
    hash index finds it there; a definition without one says what it must find. */
module Repeats {
  import opened Common
  import opened Runs
  import opened Alignment
  import opened Boundaries

  /** Frames [start, end) of one download. */
  datatype Piece = Piece(start: nat, end: nat)

  /** A whole spliced piece inside [from, to): from one splice point to the
      next, of at least shortest frames. */
  ghost predicate Whole(frames: Track, from: nat, to: nat, shortest: nat, p: Piece) {
    && from <= p.start < p.end <= to <= |frames|
    && Clean(frames, p.start) && Clean(frames, p.end)
    && (forall i | p.start < i < p.end :: !Clean(frames, i))
    && p.end - p.start >= shortest
  }

  ghost predicate InOrderPieces(ps: seq<Piece>) {
    forall a, b | 0 <= a < b < |ps| :: ps[a].end <= ps[b].start
  }

  /** The pieces of [from, to), each once and in order. */
  ghost predicate ListsPieces(frames: Track, from: nat, to: nat, shortest: nat, list: seq<Piece>) {
    && InOrderPieces(list)
    && forall p :: p in list <==> Whole(frames, from, to, shortest, p)
  }

  ghost predicate PiecesSoFar(frames: Track, from: nat, i: nat, start: int, shortest: nat, list: seq<Piece>) {
    && InOrderPieces(list)
    && (forall p :: p in list <==> Whole(frames, from, i, shortest, p))
    && (forall p | p in list :: p.end <= start)
  }

  /** start is the last splice point of [from, i], or -1. */
  ghost predicate LastSplice(frames: Track, from: nat, i: nat, start: int)
    requires i <= |frames|
  {
    && (start == -1 || (from <= start <= i && Clean(frames, start)))
    && forall k | from <= k <= i && start < k :: !Clean(frames, k)
  }

  lemma NextSplice(frames: Track, from: nat, i: nat, start: int, shortest: nat, list: seq<Piece>)
    requires from <= i < |frames| && LastSplice(frames, from, i, start)
    requires PiecesSoFar(frames, from, i, start, shortest, list)
    ensures LastSplice(frames, from, i + 1, if Clean(frames, i + 1) then i + 1 else start)
    ensures !Clean(frames, i + 1) ==> PiecesSoFar(frames, from, i + 1, start, shortest, list)
    ensures Clean(frames, i + 1) ==>
              PiecesSoFar(frames, from, i + 1, i + 1, shortest,
                          if start >= 0 && i + 1 - start >= shortest then list + [Piece(start, i + 1)] else list)
  {
    forall p | Whole(frames, from, i + 1, shortest, p) && !Whole(frames, from, i, shortest, p)
      ensures Clean(frames, i + 1) && start >= 0 && p == Piece(start, i + 1)
    {
      assert p.end == i + 1;
    }
    if Clean(frames, i + 1) && start >= 0 && i + 1 - start >= shortest {
      assert Whole(frames, from, i + 1, shortest, Piece(start, i + 1));
    }
  }

  method Pieces(frames: Track, from: nat, to: nat, shortest: nat) returns (list: seq<Piece>)
    requires from <= to <= |frames|
    ensures ListsPieces(frames, from, to, shortest, list)
  {
    list := [];
    var start := -1;
    var i := from;
    if Clean(frames, i) { start := i; }
    assert LastSplice(frames, from, i, start) && PiecesSoFar(frames, from, i, start, shortest, list);
    hide LastSplice, PiecesSoFar, ListsPieces, Clean;
    while i < to
      invariant from <= i <= to
      invariant LastSplice(frames, from, i, start)
      invariant PiecesSoFar(frames, from, i, start, shortest, list)
    {
      NextSplice(frames, from, i, start, shortest, list);
      i := i + 1;
      if Clean(frames, i) {
        if start >= 0 && i - start >= shortest {
          list := list + [Piece(start, i)];
        }
        start := i;
      }
    }
    AllPieces(frames, from, to, start, shortest, list);
  }

  lemma AllPieces(frames: Track, from: nat, to: nat, start: int, shortest: nat, list: seq<Piece>)
    requires PiecesSoFar(frames, from, to, start, shortest, list)
    ensures ListsPieces(frames, from, to, shortest, list)
  {
  }

  /** The bytes of a piece, frame by frame. */
  function Content(frames: Track, p: Piece): (c: seq<seq<byte>>)
    requires p.start <= p.end <= |frames|
    ensures |c| == p.end - p.start
  {
    seq(p.end - p.start, i requires 0 <= i < p.end - p.start => frames[p.start + i].bytes)
  }

  /** No kept run covers any frame of [start, end). */
  ghost predicate UncoveredHome(kept: seq<Run>, p: Piece) {
    forall r | r in kept :: p.end <= r.home || r.home + r.length <= p.start
  }

  ghost predicate UncoveredOther(kept: seq<Run>, p: Piece) {
    forall r | r in kept :: p.end <= r.other || r.other + r.length <= p.start
  }

  /** The bytes of a whole piece outside all kept runs, of this download or the other. */
  ghost predicate IsAd(kept: seq<Run>, home: Track, other: Track, shortest: nat, content: seq<seq<byte>>) {
    || (exists p :: Whole(home, 0, |home|, shortest, p) && UncoveredHome(kept, p) && Content(home, p) == content)
    || (exists p :: Whole(other, 0, |other|, shortest, p) && UncoveredOther(kept, p) && Content(other, p) == content)
  }

  /** The definition the index must meet: a whole piece of a kept run, copying an ad. */
  ghost predicate Repeated(kept: seq<Run>, home: Track, other: Track, shortest: nat, c: Run, p: Piece) {
    && Whole(home, c.home, c.home + c.length, shortest, p)
    && IsAd(kept, home, other, shortest, Content(home, p))
  }

  // ---- the index ----

  type Index = map<int, seq<seq<seq<byte>>>>

  function Hashes(frames: Track, hash: seq<byte> -> int): (r: seq<int>)
    ensures |r| == |frames|
  {
    seq(|frames|, i requires 0 <= i < |frames| => hash(frames[i].bytes))
  }

  function PieceHash(frames: Track, p: Piece, hash: seq<byte> -> int, fold: seq<int> -> int): int
    requires p.start <= p.end <= |frames|
  {
    fold(Hashes(frames, hash)[p.start..p.end])
  }

  /** Equal bytes have equal hashes; the converse is not assumed. */
  lemma SameContentSameHash(a: Track, p: Piece, b: Track, q: Piece, hash: seq<byte> -> int, fold: seq<int> -> int)
    requires p.start <= p.end <= |a| && q.start <= q.end <= |b|
    requires Content(a, p) == Content(b, q)
    ensures PieceHash(a, p, hash, fold) == PieceHash(b, q, hash, fold)
  {
    var ha, hb := Hashes(a, hash)[p.start..p.end], Hashes(b, hash)[q.start..q.end];
    assert |ha| == |Content(a, p)| == |Content(b, q)| == |hb|;
    forall i | 0 <= i < |ha|
      ensures ha[i] == hb[i]
    {
      assert Content(a, p)[i] == Content(b, q)[i];
    }
    assert ha == hb;
  }

  predicate Filed(ads: Index, h: int, content: seq<seq<byte>>) {
    h in ads && content in ads[h]
  }

  /** The index holds only ads. */
  ghost predicate OnlyAds(ads: Index, kept: seq<Run>, home: Track, other: Track, shortest: nat) {
    forall h, content | Filed(ads, h, content) :: IsAd(kept, home, other, shortest, content)
  }

  /** Every listed piece is filed under its hash. */
  ghost predicate AllFiled(ads: Index, frames: Track, list: seq<Piece>, hash: seq<byte> -> int, fold: seq<int> -> int) {
    forall p | p in list :: p.start <= p.end <= |frames| && Filed(ads, PieceHash(frames, p, hash, fold), Content(frames, p))
  }

  ghost predicate Grows(before: Index, after: Index) {
    forall h, content | Filed(before, h, content) :: Filed(after, h, content)
  }

  method File(ads: Index, frames: Track, list: seq<Piece>, hash: seq<byte> -> int, fold: seq<int> -> int) returns (filed: Index)
    requires forall p | p in list :: p.start <= p.end <= |frames|
    ensures Grows(ads, filed) && AllFiled(filed, frames, list, hash, fold)
    ensures forall h, content | Filed(filed, h, content) ::
        Filed(ads, h, content) || exists p | p in list :: content == Content(frames, p)
  {
    filed := ads;
    for i := 0 to |list|
      invariant Grows(ads, filed) && AllFiled(filed, frames, list[..i], hash, fold)
      invariant forall h, content | Filed(filed, h, content) ::
          Filed(ads, h, content) || exists p | p in list :: content == Content(frames, p)
    {
      var p := list[i];
      var h := PieceHash(frames, p, hash, fold);
      var content := Content(frames, p);
      ghost var before := filed;
      filed := filed[h := (if h in filed then filed[h] else []) + [content]];
      FileOne(before, filed, h, content);
      assert list[..i + 1] == list[..i] + [p];
    }
    assert list[..|list|] == list;
  }

  lemma FileOne(before: Index, after: Index, h: int, content: seq<seq<byte>>)
    requires after == before[h := (if h in before then before[h] else []) + [content]]
    ensures Grows(before, after) && Filed(after, h, content)
    ensures forall g, c | Filed(after, g, c) :: Filed(before, g, c) || (g == h && c == content)
  {
  }

  // ---- the gaps between kept runs ----

  /** Where the gap before run g ends: at the run, or at the file's end. */
  function HomeStart(kept: seq<Run>, g: nat, n: nat): nat {
    if g < |kept| then kept[g].home else n
  }

  function OtherStart(kept: seq<Run>, g: nat, n: nat): nat {
    if g < |kept| then kept[g].other else n
  }

  /** A piece of a gap is covered by no run. */
  lemma GapIsUncovered(kept: seq<Run>, n: nat, m: nat, g: nat)
    requires InOrderRuns(kept, n, m) && g <= |kept|
    ensures HomeEnd(kept[..g]) <= HomeStart(kept, g, n) <= n && OtherEnd(kept[..g]) <= OtherStart(kept, g, m) <= m
    ensures forall p: Piece | HomeEnd(kept[..g]) <= p.start && p.end <= HomeStart(kept, g, n) :: UncoveredHome(kept, p)
    ensures forall p: Piece | OtherEnd(kept[..g]) <= p.start && p.end <= OtherStart(kept, g, m) :: UncoveredOther(kept, p)
  {
    forall r | r in kept
      ensures r.home + r.length <= HomeEnd(kept[..g]) || HomeStart(kept, g, n) <= r.home
      ensures r.other + r.length <= OtherEnd(kept[..g]) || OtherStart(kept, g, m) <= r.other
    {
      var k :| 0 <= k < |kept| && kept[k] == r;
      if k < g {
        PrefixInOrder(kept, n, m, g);
        EndsBound(kept[..g], n, m, k);
      }
    }
  }

  lemma PrefixInOrder(kept: seq<Run>, n: nat, m: nat, g: nat)
    requires InOrderRuns(kept, n, m) && g <= |kept|
    ensures InOrderRuns(kept[..g], n, m)
  {
  }

  /** A piece no run covers lies in one of the gaps. */
  lemma {:induction false} UncoveredIsGap(kept: seq<Run>, n: nat, m: nat, p: Piece, g: nat) returns (gap: nat)
    requires InOrderRuns(kept, n, m) && p.start < p.end <= n && UncoveredHome(kept, p)
    requires g <= |kept| && HomeEnd(kept[..g]) <= p.start
    ensures gap <= |kept| && HomeEnd(kept[..gap]) <= p.start && p.end <= HomeStart(kept, gap, n)
    decreases |kept| - g
  {
    gap := g;
    if g < |kept| && p.end > kept[g].home {
      assert kept[g] in kept;
      assert kept[..g + 1][g] == kept[g];
      gap := UncoveredIsGap(kept, n, m, p, g + 1);
    }
  }

  lemma {:induction false} UncoveredIsOtherGap(kept: seq<Run>, n: nat, m: nat, p: Piece, g: nat) returns (gap: nat)
    requires InOrderRuns(kept, n, m) && p.start < p.end <= m && UncoveredOther(kept, p)
    requires g <= |kept| && OtherEnd(kept[..g]) <= p.start
    ensures gap <= |kept| && OtherEnd(kept[..gap]) <= p.start && p.end <= OtherStart(kept, gap, m)
    decreases |kept| - g
  {
    gap := g;
    if g < |kept| && p.end > kept[g].other {
      assert kept[g] in kept;
      assert kept[..g + 1][g] == kept[g];
      gap := UncoveredIsOtherGap(kept, n, m, p, g + 1);
    }
  }

  /** The ads of gaps [0, g) of both downloads are filed. */
  ghost predicate GapsFiled(ads: Index, kept: seq<Run>, home: Track, other: Track, shortest: nat, g: nat,
                            hash: seq<byte> -> int, fold: seq<int> -> int)
    requires g <= |kept| + 1
  {
    forall k | 0 <= k < g ::
      && (forall p | Whole(home, HomeEnd(kept[..k]), HomeStart(kept, k, |home|), shortest, p) ::
            Filed(ads, PieceHash(home, p, hash, fold), Content(home, p)))
      && (forall p | Whole(other, OtherEnd(kept[..k]), OtherStart(kept, k, |other|), shortest, p) ::
            Filed(ads, PieceHash(other, p, hash, fold), Content(other, p)))
  }

  /** One gap of each download, filed. */
  method FileGap(ads: Index, kept: seq<Run>, home: Track, other: Track, shortest: nat, g: nat,
                 hash: seq<byte> -> int, fold: seq<int> -> int) returns (filed: Index)
    requires Sound(kept, home, other) && g <= |kept|
    requires OnlyAds(ads, kept, home, other, shortest)
    requires GapsFiled(ads, kept, home, other, shortest, g, hash, fold)
    ensures OnlyAds(filed, kept, home, other, shortest)
    ensures GapsFiled(filed, kept, home, other, shortest, g + 1, hash, fold)
  {
    GapIsUncovered(kept, |home|, |other|, g);
    var homeEnd := if g > 0 then kept[g - 1].home + kept[g - 1].length else 0;
    var otherEnd := if g > 0 then kept[g - 1].other + kept[g - 1].length else 0;
    assert homeEnd == HomeEnd(kept[..g]) && otherEnd == OtherEnd(kept[..g]);
    var homePieces := Pieces(home, homeEnd, HomeStart(kept, g, |home|), shortest);
    var otherPieces := Pieces(other, otherEnd, OtherStart(kept, g, |other|), shortest);
    forall p | p in homePieces
      ensures Whole(home, 0, |home|, shortest, p) && UncoveredHome(kept, p)
    {
    }
    forall p | p in otherPieces
      ensures Whole(other, 0, |other|, shortest, p) && UncoveredOther(kept, p)
    {
    }
    var half := File(ads, home, homePieces, hash, fold);
    filed := File(half, other, otherPieces, hash, fold);
  }

  /** Filed under its hash, for every ad of either download. */
  ghost predicate Complete(ads: Index, kept: seq<Run>, home: Track, other: Track, shortest: nat,
                           hash: seq<byte> -> int, fold: seq<int> -> int) {
    && (forall p | Whole(home, 0, |home|, shortest, p) && UncoveredHome(kept, p) ::
          Filed(ads, PieceHash(home, p, hash, fold), Content(home, p)))
    && (forall p | Whole(other, 0, |other|, shortest, p) && UncoveredOther(kept, p) ::
          Filed(ads, PieceHash(other, p, hash, fold), Content(other, p)))
  }

  lemma GapsAreComplete(ads: Index, kept: seq<Run>, home: Track, other: Track, shortest: nat,
                        hash: seq<byte> -> int, fold: seq<int> -> int)
    requires Sound(kept, home, other)
    requires GapsFiled(ads, kept, home, other, shortest, |kept| + 1, hash, fold)
    ensures Complete(ads, kept, home, other, shortest, hash, fold)
  {
    forall p | Whole(home, 0, |home|, shortest, p) && UncoveredHome(kept, p)
      ensures Filed(ads, PieceHash(home, p, hash, fold), Content(home, p))
    {
      var g := UncoveredIsGap(kept, |home|, |other|, p, 0);
      GapIsUncovered(kept, |home|, |other|, g);
      assert Whole(home, HomeEnd(kept[..g]), HomeStart(kept, g, |home|), shortest, p);
    }
    forall p | Whole(other, 0, |other|, shortest, p) && UncoveredOther(kept, p)
      ensures Filed(ads, PieceHash(other, p, hash, fold), Content(other, p))
    {
      var g := UncoveredIsOtherGap(kept, |home|, |other|, p, 0);
      GapIsUncovered(kept, |home|, |other|, g);
      assert Whole(other, OtherEnd(kept[..g]), OtherStart(kept, g, |other|), shortest, p);
    }
  }

  method CollectAds(kept: seq<Run>, home: Track, other: Track, shortest: nat,
                    hash: seq<byte> -> int, fold: seq<int> -> int) returns (ads: Index)
    requires Sound(kept, home, other)
    ensures OnlyAds(ads, kept, home, other, shortest)
    ensures Complete(ads, kept, home, other, shortest, hash, fold)
  {
    ads := map[];
    for g := 0 to |kept| + 1
      invariant OnlyAds(ads, kept, home, other, shortest)
      invariant GapsFiled(ads, kept, home, other, shortest, g, hash, fold)
    {
      ads := FileGap(ads, kept, home, other, shortest, g, hash, fold);
    }
    GapsAreComplete(ads, kept, home, other, shortest, hash, fold);
  }

  /** Looking up a piece's hash and comparing bytes finds exactly the ads. */
  lemma LookupIsExact(ads: Index, kept: seq<Run>, home: Track, other: Track, shortest: nat,
                      hash: seq<byte> -> int, fold: seq<int> -> int, p: Piece)
    requires p.start <= p.end <= |home|
    requires OnlyAds(ads, kept, home, other, shortest) && Complete(ads, kept, home, other, shortest, hash, fold)
    ensures Filed(ads, PieceHash(home, p, hash, fold), Content(home, p))
            <==> IsAd(kept, home, other, shortest, Content(home, p))
  {
    if IsAd(kept, home, other, shortest, Content(home, p)) {
      if q :| Whole(home, 0, |home|, shortest, q) && UncoveredHome(kept, q) && Content(home, q) == Content(home, p) {
        SameContentSameHash(home, q, home, p, hash, fold);
      } else {
        var q :| Whole(other, 0, |other|, shortest, q) && UncoveredOther(kept, q) && Content(other, q) == Content(home, p);
        SameContentSameHash(other, q, home, p, hash, fold);
      }
    }
  }

  // ---- cutting ----

  /** The cuts of run c: its repeated pieces, each once and in order. */
  ghost predicate CutsOf(kept: seq<Run>, home: Track, other: Track, shortest: nat, c: Run, cuts: seq<Piece>) {
    InOrderPieces(cuts) && forall p :: p in cuts <==> Repeated(kept, home, other, shortest, c, p)
  }

  method FindCuts(ads: Index, kept: seq<Run>, home: Track, ghost other: Track, shortest: nat,
                  hash: seq<byte> -> int, fold: seq<int> -> int, c: Run) returns (cuts: seq<Piece>)
    requires c.home + c.length <= |home|
    requires OnlyAds(ads, kept, home, other, shortest) && Complete(ads, kept, home, other, shortest, hash, fold)
    ensures CutsOf(kept, home, other, shortest, c, cuts)
  {
    var list := Pieces(home, c.home, c.home + c.length, shortest);
    cuts := [];
    for i := 0 to |list|
      invariant InOrderPieces(cuts) && forall p | p in cuts :: p in list[..i]
      invariant forall p | p in cuts :: Repeated(kept, home, other, shortest, c, p)
      invariant forall p | p in list[..i] && Repeated(kept, home, other, shortest, c, p) :: p in cuts
    {
      assert list[i] in list;
      LookupIsExact(ads, kept, home, other, shortest, hash, fold, list[i]);
      assert list[..i + 1] == list[..i] + [list[i]];
      forall p | p in list[..i]
        ensures p.end <= list[i].start
      {
        var k :| 0 <= k < i && list[k] == p;
      }
      if Filed(ads, PieceHash(home, list[i], hash, fold), Content(home, list[i])) {
        cuts := cuts + [list[i]];
      }
    }
    assert list[..|list|] == list;
  }

  /** The cuts lie inside c, in order. */
  ghost predicate CutsInside(c: Run, cuts: seq<Piece>) {
    InOrderPieces(cuts) && forall p | p in cuts :: c.home <= p.start < p.end <= c.home + c.length
  }

  /** The k-th stretch of c between cuts. */
  function StretchFrom(c: Run, cuts: seq<Piece>, k: nat): nat
    requires k <= |cuts|
  {
    if k == 0 then c.home else cuts[k - 1].end
  }

  function StretchTo(c: Run, cuts: seq<Piece>, k: nat): nat
    requires k <= |cuts|
  {
    if k < |cuts| then cuts[k].start else c.home + c.length
  }

  /** r is the k-th stretch, paired as c is, and long enough to stay. */
  ghost predicate Survives(c: Run, cuts: seq<Piece>, minimum: nat, k: nat, r: Run)
    requires k <= |cuts|
  {
    && r.home == StretchFrom(c, cuts, k) && r.home + r.length == StretchTo(c, cuts, k)
    && r.other - c.other == r.home - c.home && r.length >= minimum
  }

  ghost predicate SurvivesBefore(c: Run, cuts: seq<Piece>, minimum: nat, k: nat, r: Run)
    requires k <= |cuts| + 1
  {
    exists j :: 0 <= j < k && Survives(c, cuts, minimum, j, r)
  }

  lemma StretchBounds(c: Run, cuts: seq<Piece>, k: nat)
    requires CutsInside(c, cuts) && k <= |cuts|
    ensures c.home <= StretchFrom(c, cuts, k) <= StretchTo(c, cuts, k) <= c.home + c.length
  {
    if k > 0 { assert cuts[k - 1] in cuts; }
    if k < |cuts| { assert cuts[k] in cuts; }
  }

  /** Cutting one run: exactly its long enough stretches stay, in order. */
  method Split(c: Run, cuts: seq<Piece>, minimum: nat, result: seq<Run>, ghost home: Track, ghost other: Track) returns (more: seq<Run>)
    requires CutsInside(c, cuts) && minimum >= 1
    requires Sound(result, home, other) && HomeEnd(result) <= c.home && OtherEnd(result) <= c.other
    requires c.home + c.length <= |home| && c.other + c.length <= |other| && SameBytes(home, other, c)
    ensures Sound(more, home, other)
    ensures HomeEnd(more) <= c.home + c.length && OtherEnd(more) <= c.other + c.length
    ensures forall r :: r in more <==> r in result || SurvivesBefore(c, cuts, minimum, |cuts| + 1, r)
  {
    more := result;
    var start := c.home;
    for k := 0 to |cuts| + 1
      invariant k <= |cuts| ==> start == StretchFrom(c, cuts, k)
      invariant c.home <= start && (k == |cuts| + 1 ==> start == c.home + c.length)
      invariant HomeEnd(more) <= start && OtherEnd(more) <= c.other + (start - c.home)
      invariant Sound(more, home, other)
      invariant forall r :: r in more <==> r in result || SurvivesBefore(c, cuts, minimum, k, r)
    {
      StretchBounds(c, cuts, k);
      var stop := StretchTo(c, cuts, k);
      ghost var r := Run(start, c.other + (start - c.home), stop - start);
      assert forall x | Survives(c, cuts, minimum, k, x) :: x == r;
      if stop - start >= minimum {
        AppendPart(more, r, c, home, other);
        assert Survives(c, cuts, minimum, k, r);
        more := more + [Run(start, c.other + (start - c.home), stop - start)];
      }
      start := if k < |cuts| then cuts[k].end else stop;
    }
  }

  /** r is c itself when nothing of c repeats, or a stretch of c that stays. */
  ghost predicate Left(kept: seq<Run>, home: Track, other: Track, shortest: nat, minimum: nat, c: Run, r: Run) {
    exists cuts | CutsOf(kept, home, other, shortest, c, cuts) ::
      if cuts == [] then r == c else SurvivesBefore(c, cuts, minimum, |cuts| + 1, r)
  }

  lemma CutsAreInside(kept: seq<Run>, home: Track, other: Track, shortest: nat, c: Run, cuts: seq<Piece>)
    requires CutsOf(kept, home, other, shortest, c, cuts)
    ensures CutsInside(c, cuts)
  {
    forall p | p in cuts
      ensures c.home <= p.start < p.end <= c.home + c.length
    {
      assert Repeated(kept, home, other, shortest, c, p);
    }
  }

  /** The cuts of a run are one list. */
  lemma {:induction false} CutsUnique(a: seq<Piece>, b: seq<Piece>)
    requires InOrderPieces(a) && InOrderPieces(b)
    requires forall p | p in a :: p.start < p.end
    requires forall p :: p in a <==> p in b
    ensures a == b
  {
    assert a == [] <==> b == [] by {
      if a != [] { assert a[0] in b; }
      if b != [] { assert b[0] in a; }
    }
    if a != [] {
      assert a[0] in b && b[0] in a;
      assert a[0] == b[0];
      forall p
        ensures p in a[1..] <==> p in b[1..]
      {
        if p in a[1..] {
          assert p in a && p != a[0];
        }
        if p in b[1..] {
          assert p in b && p in a && p != b[0];
        }
      }
      CutsUnique(a[1..], b[1..]);
    }
  }

  /** What one run gives: itself, or its surviving stretches. */
  method CutRun(kept: seq<Run>, home: Track, other: Track, shortest: nat, minimum: nat, c: Run, cuts: seq<Piece>, result: seq<Run>)
    returns (more: seq<Run>)
    requires CutsOf(kept, home, other, shortest, c, cuts) && minimum >= 1 && c.length > 0
    requires Sound(result, home, other) && HomeEnd(result) <= c.home && OtherEnd(result) <= c.other
    requires c.home + c.length <= |home| && c.other + c.length <= |other| && SameBytes(home, other, c)
    ensures Sound(more, home, other)
    ensures HomeEnd(more) <= c.home + c.length && OtherEnd(more) <= c.other + c.length
    ensures forall r :: r in more <==> r in result || Left(kept, home, other, shortest, minimum, c, r)
  {
    CutsAreInside(kept, home, other, shortest, c, cuts);
    if cuts == [] {
      AppendPart(result, c, c, home, other);
      more := result + [c];
    } else {
      more := Split(c, cuts, minimum, result, home, other);
    }
    forall r
      ensures Left(kept, home, other, shortest, minimum, c, r)
              <==> if cuts == [] then r == c else SurvivesBefore(c, cuts, minimum, |cuts| + 1, r)
    {
      if Left(kept, home, other, shortest, minimum, c, r) {
        var same :| CutsOf(kept, home, other, shortest, c, same) &&
          if same == [] then r == c else SurvivesBefore(c, same, minimum, |same| + 1, r);
        assert CutsOf(kept, home, other, shortest, c, same);
        CutsUnique(cuts, same);
      }
    }
  }

  ghost predicate RepeatIn(kept: seq<Run>, upTo: nat, home: Track, other: Track, shortest: nat, r: Run)
    requires upTo <= |kept|
  {
    exists q | 0 <= q < upTo :: r.other == 0 && Repeated(kept, home, other, shortest, kept[q], Piece(r.home, r.home + r.length))
  }

  ghost predicate LeftIn(kept: seq<Run>, upTo: nat, home: Track, other: Track, shortest: nat, minimum: nat, r: Run)
    requires upTo <= |kept|
  {
    exists q | 0 <= q < upTo :: Left(kept, home, other, shortest, minimum, kept[q], r)
  }

  /** Each ends before the next begins: with what is in it, that is one list. */
  ghost predicate InHomeOrder(rs: seq<Run>) {
    forall p, q | 0 <= p < q < |rs| :: rs[p].home + rs[p].length <= rs[q].home
  }

  ghost predicate EndBy(rs: seq<Run>, end: nat) {
    forall r | r in rs :: r.home + r.length <= end
  }

  lemma AppendInOrder(rs: seq<Run>, r: Run)
    requires InHomeOrder(rs) && EndBy(rs, r.home)
    ensures InHomeOrder(rs + [r]) && EndBy(rs + [r], r.home + r.length)
  {
    var more := rs + [r];
    forall p, q | 0 <= p < q < |more|
      ensures more[p].home + more[p].length <= more[q].home
    {
      assert more[p] in rs;
    }
  }

  method AsRuns(repeats: seq<Run>, cuts: seq<Piece>, ghost from: nat, ghost to: nat) returns (more: seq<Run>)
    requires InOrderPieces(cuts) && from <= to && forall p | p in cuts :: from <= p.start <= p.end <= to
    requires InHomeOrder(repeats) && EndBy(repeats, from)
    ensures forall r :: r in more <==> r in repeats || (r.other == 0 && Piece(r.home, r.home + r.length) in cuts)
    ensures InHomeOrder(more) && EndBy(more, to)
  {
    more := repeats;
    ghost var end: nat := from;
    for k := 0 to |cuts|
      invariant forall r :: r in more <==> r in repeats || (r.other == 0 && Piece(r.home, r.home + r.length) in cuts[..k])
      invariant InHomeOrder(more) && EndBy(more, end)
      invariant from <= end <= to && forall j | k <= j < |cuts| :: end <= cuts[j].start
    {
      hide InHomeOrder;
      assert cuts[k] in cuts && cuts[k].start <= cuts[k].end;
      assert cuts[..k + 1] == cuts[..k] + [cuts[k]];
      var r := Run(cuts[k].start, 0, cuts[k].end - cuts[k].start);
      AppendInOrder(more, r);
      more := more + [r];
      end := cuts[k].end;
    }
    assert cuts[..|cuts|] == cuts;
  }

  /** Without ads nothing repeats, and every run stays as it is. */
  lemma NoAdsNoCuts(ads: Index, kept: seq<Run>, home: Track, other: Track, shortest: nat, minimum: nat,
                    hash: seq<byte> -> int, fold: seq<int> -> int)
    requires Sound(kept, home, other) && |ads| == 0
    requires Complete(ads, kept, home, other, shortest, hash, fold)
    ensures forall r :: r in kept <==> LeftIn(kept, |kept|, home, other, shortest, minimum, r)
    ensures forall r :: !RepeatIn(kept, |kept|, home, other, shortest, r)
  {
    forall c, p
      ensures !Repeated(kept, home, other, shortest, c, p)
    {
    }
    NothingRepeated(kept, home, other, shortest, minimum);
  }

  /** When no piece of a kept run copies an ad, every run stays as it is. */
  lemma NothingRepeated(kept: seq<Run>, home: Track, other: Track, shortest: nat, minimum: nat)
    requires forall c, p | c in kept :: !Repeated(kept, home, other, shortest, c, p)
    ensures forall r :: r in kept <==> LeftIn(kept, |kept|, home, other, shortest, minimum, r)
    ensures forall r :: !RepeatIn(kept, |kept|, home, other, shortest, r)
  {
    hide Repeated;
    forall c, r | c in kept
      ensures Left(kept, home, other, shortest, minimum, c, r) <==> r == c
    {
      assert CutsOf(kept, home, other, shortest, c, []);
      forall cuts | CutsOf(kept, home, other, shortest, c, cuts)
        ensures cuts == []
      {
        CutIsRepeated(kept, home, other, shortest, c, cuts);
      }
    }
    hide Left;
    forall r
      ensures r in kept <==> LeftIn(kept, |kept|, home, other, shortest, minimum, r)
    {
      if r in kept {
        var q :| 0 <= q < |kept| && kept[q] == r;
        assert Left(kept, home, other, shortest, minimum, kept[q], r);
      }
    }
  }

  lemma CutIsRepeated(kept: seq<Run>, home: Track, other: Track, shortest: nat, c: Run, cuts: seq<Piece>)
    requires CutsOf(kept, home, other, shortest, c, cuts)
    ensures cuts == [] || exists p :: Repeated(kept, home, other, shortest, c, p)
  {
    if cuts != [] {
      assert Repeated(kept, home, other, shortest, c, cuts[0]);
    }
  }

  lemma RunsAfter(rs: seq<Run>, end: nat, later: nat)
    requires EndBy(rs, end) && end <= later
    ensures EndBy(rs, later)
  {
  }

  /** What is kept is exactly what the brute-force definition leaves, and what
      is removed exactly what it calls a repeat, each once and in order. */
  method RemoveRepeats(kept: seq<Run>, home: Track, other: Track, shortest: nat, minimum: nat,
                       hash: seq<byte> -> int, fold: seq<int> -> int) returns (result: seq<Run>, repeats: seq<Run>)
    requires Sound(kept, home, other) && minimum >= 1
    ensures Sound(result, home, other)
    ensures forall r :: r in result <==> LeftIn(kept, |kept|, home, other, shortest, minimum, r)
    ensures forall r :: r in repeats <==> RepeatIn(kept, |kept|, home, other, shortest, r)
    ensures InHomeOrder(repeats)
  {
    var ads := CollectAds(kept, home, other, shortest, hash, fold);
    if |ads| == 0 {
      NoAdsNoCuts(ads, kept, home, other, shortest, minimum, hash, fold);
      return kept, [];
    }
    result, repeats := [], [];
    for i := 0 to |kept|
      invariant Sound(result, home, other)
      invariant HomeEnd(result) <= HomeEnd(kept[..i]) && OtherEnd(result) <= OtherEnd(kept[..i])
      invariant forall r :: r in result <==> LeftIn(kept, i, home, other, shortest, minimum, r)
      invariant forall r :: r in repeats <==> RepeatIn(kept, i, home, other, shortest, r)
      invariant InHomeOrder(repeats) && EndBy(repeats, HomeEnd(kept[..i]))
    {
      hide InHomeOrder;
      PrefixEnds(kept, |home|, |other|, i);
      var cuts := FindCuts(ads, kept, home, other, shortest, hash, fold, kept[i]);
      CutsAreInside(kept, home, other, shortest, kept[i], cuts);
      result := CutRun(kept, home, other, shortest, minimum, kept[i], cuts, result);
      RunsAfter(repeats, HomeEnd(kept[..i]), kept[i].home);
      repeats := AsRuns(repeats, cuts, kept[i].home, kept[i].home + kept[i].length);
    }
  }

  /** The stretch a frame outside every cut lies in. */
  lemma StretchOf(c: Run, cuts: seq<Piece>, i: nat) returns (k: nat)
    requires CutsInside(c, cuts) && c.home <= i < c.home + c.length
    requires forall p | p in cuts :: !(p.start <= i < p.end)
    ensures k <= |cuts| && StretchFrom(c, cuts, k) <= i < StretchTo(c, cuts, k)
  {
    k := 0;
    while k < |cuts| && cuts[k].end <= i
      invariant k <= |cuts| && StretchFrom(c, cuts, k) <= i
    {
      k := k + 1;
    }
    if k < |cuts| { assert cuts[k] in cuts; }
  }

  ghost predicate Covers(r: Run, i: nat) {
    r.home <= i < r.home + r.length
  }

  /** Frame i lies in a stretch of c too short to stay, bounded by cuts. */
  ghost predicate InScrap(kept: seq<Run>, home: Track, other: Track, shortest: nat, minimum: nat, c: Run, i: nat) {
    exists cuts, k: nat | CutsOf(kept, home, other, shortest, c, cuts) && cuts != [] && k <= |cuts| ::
      StretchFrom(c, cuts, k) <= i < StretchTo(c, cuts, k) < StretchFrom(c, cuts, k) + minimum
  }

  /** Every kept frame stays, or is in a removed copy of an ad, or in a
      stretch shorter than minimum between such copies and the run's edges. */
  lemma EveryFrameAccounted(kept: seq<Run>, home: Track, other: Track, shortest: nat, minimum: nat,
                            cuts: seq<Piece>, c: Run, i: nat)
    requires minimum >= 1 && c in kept && Covers(c, i)
    requires CutsOf(kept, home, other, shortest, c, cuts)
    ensures || (exists r :: Covers(r, i) && Left(kept, home, other, shortest, minimum, c, r))
            || (exists p: Piece :: p.start <= i < p.end && Repeated(kept, home, other, shortest, c, p))
            || InScrap(kept, home, other, shortest, minimum, c, i)
  {
    CutsAreInside(kept, home, other, shortest, c, cuts);
    if p :| p in cuts && p.start <= i < p.end {
      assert Repeated(kept, home, other, shortest, c, p);
    } else if cuts == [] {
      assert Left(kept, home, other, shortest, minimum, c, c);
    } else {
      var k := StretchOf(c, cuts, i);
      StretchBounds(c, cuts, k);
      var from, to := StretchFrom(c, cuts, k), StretchTo(c, cuts, k);
      if to - from >= minimum {
        var r := Run(from, c.other + (from - c.home), to - from);
        assert Survives(c, cuts, minimum, k, r);
        assert Left(kept, home, other, shortest, minimum, c, r);
        assert Covers(r, i);
      }
    }
  }
}
