/** Which episodes a feed shows, and how that changes as they are prepared. */
module Publishing {
  import Retries
  import Claims

  /** An episode as the feed sees it, oldest first in its feed. */
  datatype Episode = Episode(id: nat, state: Retries.State, withheld: bool, hidden: bool, backlog: bool, dropped: bool)

  /** Whether anything is prepared for the feed, and whether ahead of requests. */
  datatype Mode = Mode(prepare: bool, prepareAhead: bool)

  predicate Visible(e: Episode) { !e.withheld && !e.hidden }

  predicate Done(e: Episode) { e.state == Retries.Ready || e.state == Retries.Failed }

  /** Published whatever its state. */
  predicate Free(e: Episode, m: Mode) {
    !m.prepare || (e.backlog && !m.prepareAhead) || e.dropped
  }

  /** Waits its turn: shown once it and every such episode before it are done. */
  predicate Bound(e: Episode, m: Mode) { Visible(e) && !Free(e, m) }

  ghost predicate InTurn(s: seq<Episode>, m: Mode, i: nat)
    requires i < |s|
  {
    forall j | 0 <= j <= i && Bound(s[j], m) :: Done(s[j])
  }

  /** Shown by the rule. */
  ghost predicate ByRule(s: seq<Episode>, m: Mode, i: nat)
    requires i < |s|
  {
    Visible(s[i]) && (Free(s[i], m) || InTurn(s, m, i))
  }

  ghost predicate AnyByRule(s: seq<Episode>, m: Mode, n: nat)
    requires n <= |s|
  {
    exists i | 0 <= i < n :: ByRule(s, m, i)
  }

  /** The episode shown for want of any other: the oldest visible one, or the
      oldest of all. */
  ghost predicate StandIn(s: seq<Episode>, i: nat)
    requires i < |s|
  {
    || (Visible(s[i]) && forall j | 0 <= j < i :: !Visible(s[j]))
    || (i == 0 && forall j | 0 <= j < |s| :: !Visible(s[j]))
  }

  ghost predicate Shown(s: seq<Episode>, m: Mode, i: nat)
    requires i < |s|
  {
    ByRule(s, m, i) || (!AnyByRule(s, m, |s|) && StandIn(s, i))
  }

  ghost function ShownIds(s: seq<Episode>, m: Mode): set<nat> {
    set i | 0 <= i < |s| && Shown(s, m, i) :: s[i].id
  }

  ghost function IdsByRule(s: seq<Episode>, m: Mode, n: nat): set<nat>
    requires n <= |s|
  {
    set i | 0 <= i < n && ByRule(s, m, i) :: s[i].id
  }

  ghost predicate Holding(s: seq<Episode>, m: Mode, n: nat)
    requires n <= |s|
  {
    exists j | 0 <= j < n :: Bound(s[j], m) && !Done(s[j])
  }

  lemma RuleStep(s: seq<Episode>, m: Mode, i: nat)
    requires i < |s|
    ensures IdsByRule(s, m, i + 1) == IdsByRule(s, m, i) + if ByRule(s, m, i) then {s[i].id} else {}
    ensures ByRule(s, m, i) <==> Visible(s[i]) && (Free(s[i], m) || (!Holding(s, m, i) && Done(s[i])))
    ensures Holding(s, m, i + 1) <==> Holding(s, m, i) || (Bound(s[i], m) && !Done(s[i]))
  {
    if !Holding(s, m, i) && Visible(s[i]) && Done(s[i]) {
      forall j | 0 <= j <= i && Bound(s[j], m)
        ensures Done(s[j])
      {
      }
      assert InTurn(s, m, i);
    }
    if Visible(s[i]) && !Free(s[i], m) && InTurn(s, m, i) {
      assert Bound(s[i], m);
    }
  }

  lemma OldestStandsIn(s: seq<Episode>, m: Mode, i: nat)
    requires i < |s| && !AnyByRule(s, m, |s|) && StandIn(s, i)
    ensures ShownIds(s, m) == {s[i].id}
  {
    forall k | 0 <= k < |s|
      ensures Shown(s, m, k) <==> k == i
    {
    }
    assert Shown(s, m, i);
  }

  /** The episodes published: those the rule shows, or the one standing in. */
  method PublishedEpisodes(s: seq<Episode>, m: Mode) returns (published: set<nat>)
    ensures published == ShownIds(s, m)
    ensures s != [] ==> published != {}
  {
    published := {};
    var holding := false;
    for i := 0 to |s|
      invariant published == IdsByRule(s, m, i)
      invariant holding == Holding(s, m, i)
    {
      hide IdsByRule, ByRule, Holding;
      RuleStep(s, m, i);
      var episode := s[i];
      if episode.withheld || episode.hidden {
      } else if !m.prepare || (episode.backlog && !m.prepareAhead) || episode.dropped {
        published := published + {episode.id};
      } else if holding {
      } else if episode.state == Retries.Ready || episode.state == Retries.Failed {
        published := published + {episode.id};
      } else {
        holding := true;
      }
    }
    if published == {} && s != [] {
      NoneByRule(s, m);
      var oldest := 0;
      for i := 0 to |s|
        invariant oldest == 0
        invariant forall j | 0 <= j < i :: !Visible(s[j])
      {
        if !s[i].withheld && !s[i].hidden {
          oldest := i;
          break;
        }
      }
      assert StandIn(s, oldest);
      OldestStandsIn(s, m, oldest);
      published := {s[oldest].id};
    } else {
      RuleShowsAll(s, m);
    }
  }

  lemma NoneByRule(s: seq<Episode>, m: Mode)
    requires IdsByRule(s, m, |s|) == {}
    ensures !AnyByRule(s, m, |s|)
  {
    forall i | 0 <= i < |s|
      ensures !ByRule(s, m, i)
    {
      assert s[i].id !in IdsByRule(s, m, |s|);
    }
  }

  lemma RuleShowsAll(s: seq<Episode>, m: Mode)
    requires s == [] || IdsByRule(s, m, |s|) != {}
    ensures ShownIds(s, m) == IdsByRule(s, m, |s|)
  {
    if s != [] {
      var id :| id in IdsByRule(s, m, |s|);
      assert AnyByRule(s, m, |s|);
    }
  }

  /** There are no gaps: an episode published in its turn has every earlier
      one that waits its turn published too. */
  lemma NoGaps(s: seq<Episode>, m: Mode, i: nat, j: nat)
    requires j < i < |s| && ByRule(s, m, i) && Bound(s[i], m) && Bound(s[j], m)
    ensures ByRule(s, m, j) && Shown(s, m, j)
  {
    assert InTurn(s, m, j);
  }

  /** What is withheld or hidden is shown only when everything is; then the
      oldest is. Of a feed nothing is prepared for all else is shown. */
  lemma OutOfTheFeed(s: seq<Episode>, m: Mode, i: nat, k: nat)
    requires i < |s| && k < |s| && !s[k].withheld && !s[k].hidden
    ensures Shown(s, m, i) ==> !s[i].withheld && !s[i].hidden
    ensures !m.prepare ==> (Shown(s, m, i) <==> !s[i].withheld && !s[i].hidden)
  {
    assert Visible(s[k]);
    assert !m.prepare ==> ByRule(s, m, k);
  }

  // ---- what holds a feed back ----

  /** The row of the episodes table the feed sees as this episode. */
  predicate IsOf(row: Claims.Stored, e: Episode) {
    row.row.state == e.state && row.row.withheld == e.withheld && row.hidden == e.hidden && row.dropped == e.dropped
  }

  /** When an episode that may be seen waits its turn, one that is not done is
      there before it, or is it; and that one is prepared: a worker may claim it
      as soon as it is due, or has it. */
  lemma HeldBackIsPrepared(s: seq<Episode>, m: Mode, i: nat, feeds: set<nat>) returns (j: nat)
    requires i < |s| && !s[i].withheld && !s[i].hidden && !ByRule(s, m, i)
    ensures m.prepare && j <= i && s[j].state !in {Retries.Ready, Retries.Failed} && (s[j].backlog ==> m.prepareAhead)
    ensures forall row: Claims.Stored, t | IsOf(row, s[j]) && row.feed in feeds ::
        Claims.IsNext(row, t, feeds) <==> s[j].state == Retries.Discovered && (row.row.due.None? || t >= row.row.due.value)
  {
    j :| j <= i && Bound(s[j], m) && !Done(s[j]);
  }

  /** And what a worker may claim as new holds back all that come after it in
      turn, in a feed that prepares it: but for a withheld one, which no policy
      leaves waiting, only episodes published whatever their state pass it. */
  lemma ClaimableHoldsBack(s: seq<Episode>, m: Mode, i: nat, j: nat, row: Claims.Stored, t: int, feeds: set<nat>)
    requires j <= i < |s| && IsOf(row, s[j]) && Claims.IsNext(row, t, feeds)
    requires m.prepare && (s[j].backlog ==> m.prepareAhead) && Retries.Remembered(row.row)
    requires ByRule(s, m, i)
    ensures s[i].dropped || (s[i].backlog && !m.prepareAhead)
  {
    assert Bound(s[j], m) && !Done(s[j]);
  }

  // ---- how it changes ----

  /** What preparing an episode may change of it: its state, but not back from
      done, and whether it is withheld, which only ends when it is done. */
  predicate Prepared(before: Episode, after: Episode) {
    && after == before.(state := after.state, withheld := after.withheld)
    && (Done(before) ==> Done(after))
    && (before.withheld && !after.withheld ==> Done(after))
  }

  function AsRow(e: Episode, row: Retries.Row): Episode {
    e.(state := row.state, withheld := row.withheld)
  }

  /** Claims and outcomes are such changes. */
  lemma OutcomesPrepare(e: Episode, row: Retries.Row, lease: int, outcome: Retries.Outcome, policy: Retries.Policy, now: int)
    requires row.state == e.state && row.withheld == e.withheld
    ensures Retries.Waiting(row) || Retries.Queued(row) ==> Prepared(e, AsRow(e, Retries.Claimed(row, lease)))
    ensures Prepared(e, AsRow(e, Retries.Recorded(row, outcome, policy, now)))
  {
  }

  /** Whether the feed stops showing something when episode k becomes after. */
  ghost predicate Shrinks(s: seq<Episode>, m: Mode, k: nat, after: Episode)
    requires k < |s|
  {
    exists i | 0 <= i < |s| :: Shown(s, m, i) && !Shown(s[k := after], m, i)
  }

  ghost predicate OthersInvisible(s: seq<Episode>, k: nat) {
    forall j | 0 <= j < |s| && j != k :: !Visible(s[j])
  }

  /** What makes the feed stop showing something: a shown episode becomes
      withheld (and there is another to show instead, or an older one); or,
      while an episode stands in, another that was withheld takes its place:
      an older one, one published whatever its state, or the only one there
      is to see. */
  ghost predicate Displaces(s: seq<Episode>, m: Mode, k: nat, after: Episode)
    requires k < |s|
  {
    if Shown(s, m, k) then
      after.withheld && !(k == 0 && OthersInvisible(s, k))
    else
      && !AnyByRule(s, m, |s|) && !Visible(s[k]) && Visible(after)
      && ((forall j | 0 <= j < k :: !Visible(s[j])) || Free(after, m))
  }

  /** Anything else the rule shows, it still shows. */
  lemma RuleKept(s: seq<Episode>, m: Mode, k: nat, after: Episode, i: nat)
    requires k < |s| && i < |s| && Prepared(s[k], after)
    requires ByRule(s, m, i) && (i != k || Visible(after))
    ensures ByRule(s[k := after], m, i)
  {
    var t := s[k := after];
    if !Free(s[i], m) {
      forall j | 0 <= j <= i && Bound(t[j], m)
        ensures Done(t[j])
      {
        if j != k {
          assert Bound(s[j], m);
        }
      }
    }
  }

  /** With nothing shown by the rule, the oldest visible episode waits. */
  lemma FirstWaits(s: seq<Episode>, m: Mode, i: nat)
    requires i < |s| && !AnyByRule(s, m, |s|) && StandIn(s, i) && Visible(s[i])
    ensures Bound(s[i], m) && !Done(s[i])
  {
    assert !ByRule(s, m, i);
    assert Done(s[i]) ==> InTurn(s, m, i);
  }

  /** A stand-in is there whenever it is needed. */
  lemma SomeStandIn(s: seq<Episode>) returns (i: nat)
    requires s != []
    ensures i < |s| && StandIn(s, i)
  {
    i := 0;
    while i < |s| && !Visible(s[i])
      invariant i <= |s|
      invariant forall j | 0 <= j < i :: !Visible(s[j])
    {
      i := i + 1;
    }
    if i == |s| {
      i := 0;
    }
  }

  /** The stand-in stays while nothing visible comes before it and nothing
      else becomes one the rule always shows. */
  lemma StandInKept(s: seq<Episode>, m: Mode, k: nat, after: Episode, i: nat)
    requires k < |s| && i < |s| && Prepared(s[k], after)
    requires !AnyByRule(s, m, |s|) && StandIn(s, i)
    requires i != k && !Displaces(s, m, k, after)
    ensures Shown(s[k := after], m, i)
  {
    var t := s[k := after];
    OnlyStandIn(s, m, i, k);
    if Visible(s[i]) {
      FirstWaits(s, m, i);
      assert k < i ==> !Visible(after);
    }
    assert StandIn(t, i);
    forall x | 0 <= x < |t|
      ensures !ByRule(t, m, x)
    {
      assert !ByRule(s, m, x);
      assert t[i] == s[i];
    }
  }

  lemma OnlyStandIn(s: seq<Episode>, m: Mode, i: nat, k: nat)
    requires i < |s| && k < |s| && i != k && !AnyByRule(s, m, |s|) && StandIn(s, i)
    ensures !Shown(s, m, k)
  {
  }

  lemma StandInItselfKept(s: seq<Episode>, m: Mode, k: nat, after: Episode)
    requires k < |s| && Prepared(s[k], after)
    requires !AnyByRule(s, m, |s|) && StandIn(s, k) && !Displaces(s, m, k, after)
    ensures Shown(s[k := after], m, k)
  {
    var t := s[k := after];
    assert Shown(s, m, k);
    if Visible(after) {
      if x :| 0 <= x < |t| && ByRule(t, m, x) {
        assert !ByRule(s, m, x);
        if x != k {
          assert k < x;
          assert InTurn(t, m, x);
          assert InTurn(t, m, k);
        }
        assert ByRule(t, m, k);
      }
    } else if !s[k].hidden {
      assert after.withheld;
    }
  }

  /** Preparing an episode makes the feed stop showing something exactly when
      it displaces something; otherwise what is published only grows. */
  lemma ShrinksExactly(s: seq<Episode>, m: Mode, k: nat, after: Episode)
    requires k < |s| && Prepared(s[k], after)
    ensures Shrinks(s, m, k, after) <==> Displaces(s, m, k, after)
  {
    var t := s[k := after];
    if Displaces(s, m, k, after) {
      DisplacesOne(s, m, k, after);
    } else {
      forall i | 0 <= i < |s| && Shown(s, m, i)
        ensures Shown(t, m, i)
      {
        NothingLost(s, m, k, after, i);
      }
    }
  }

  lemma NothingLost(s: seq<Episode>, m: Mode, k: nat, after: Episode, i: nat)
    requires k < |s| && i < |s| && Prepared(s[k], after)
    requires Shown(s, m, i) && !Displaces(s, m, k, after)
    ensures Shown(s[k := after], m, i)
  {
    if ByRule(s, m, i) {
      if i != k || Visible(after) {
        RuleKept(s, m, k, after, i);
      }
    } else if i == k {
      StandInItselfKept(s, m, k, after);
    } else {
      StandInKept(s, m, k, after, i);
    }
  }

  lemma DisplacesOne(s: seq<Episode>, m: Mode, k: nat, after: Episode)
    requires k < |s| && Prepared(s[k], after) && Displaces(s, m, k, after)
    ensures Shrinks(s, m, k, after)
  {
    var t := s[k := after];
    if Shown(s, m, k) {
      if forall j | 0 <= j < |t| :: !Visible(t[j]) {
        assert OthersInvisible(s, k) by {
          forall j | 0 <= j < |s| && j != k
            ensures !Visible(s[j])
          {
            assert t[j] == s[j];
          }
        }
      }
      assert !Shown(t, m, k);
    } else {
      var i := SomeStandIn(s);
      assert Shown(s, m, i);
      assert t[k] == after;
      if Visible(s[i]) {
        FirstWaits(s, m, i);
      }
      if Free(after, m) {
        assert ByRule(t, m, k);
      }
      assert t[i] == s[i];
      assert !ByRule(t, m, i) by {
        assert !Done(s[i]) || !Visible(s[i]);
      }
      assert !Shown(t, m, i);
    }
  }

  /** So long as no episode starts or stops being withheld, the published
      episodes only grow. */
  lemma OnlyGrows(s: seq<Episode>, m: Mode, k: nat, after: Episode)
    requires k < |s| && Prepared(s[k], after) && after.withheld == s[k].withheld
    ensures ShownIds(s, m) <= ShownIds(s[k := after], m)
  {
    var t := s[k := after];
    assert !Displaces(s, m, k, after) by {
      if Shown(s, m, k) && after.withheld {
        assert !Visible(s[k]);
      }
    }
    ShrinksExactly(s, m, k, after);
    forall id | id in ShownIds(s, m)
      ensures id in ShownIds(t, m)
    {
      var i :| 0 <= i < |s| && Shown(s, m, i) && s[i].id == id;
      assert t[i].id == id && Shown(t, m, i);
    }
  }

  /** The stand-in gives way: the newer episode, shown while the older one was
      withheld, is gone again once the older one's slow retry succeeds. */
  lemma StandInGivesWay()
    ensures var older := Episode(0, Retries.Failed, true, false, false, false);
            var newer := Episode(1, Retries.Discovered, false, false, false, false);
            var retried := older.(state := Retries.Ready, withheld := false);
            && Prepared(older, retried)
            && ShownIds([older, newer], Mode(true, true)) == {1}
            && ShownIds([retried, newer], Mode(true, true)) == {0}
  {
    var older := Episode(0, Retries.Failed, true, false, false, false);
    var newer := Episode(1, Retries.Discovered, false, false, false, false);
    var retried := older.(state := Retries.Ready, withheld := false);
    var m := Mode(true, true);
    var s, t := [older, newer], [retried, newer];
    assert Bound(s[1], m) && !ByRule(s, m, 0) && !ByRule(s, m, 1);
    OldestStandsIn(s, m, 1);
    assert ByRule(t, m, 0) && Bound(t[1], m) && !ByRule(t, m, 1);
    assert !Shown(t, m, 1) && Shown(t, m, 0);
    forall id
      ensures id in ShownIds(t, m) <==> id == 0
    {
      assert t[0].id == 0;
    }
  }
}
