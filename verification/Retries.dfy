/** What an attempt to prepare an episode leaves behind: its state, its retry
    schedule, and why background work on an episode ends. Times are in
    seconds. */
module Retries {
  import opened Common

  datatype State = Discovered | Acquiring | Processing | Ready | Failed

  /** The columns of an episode that preparing it reads or changes. */
  datatype Row = Row(state: State, attempts: nat, failedAttempts: nat, lateRetries: nat, due: Option<int>, withheld: bool, cached: bool)

  datatype Outcome = Succeeded | Broke(permanent: bool)

  /** Whether a processor handles the feed, and what its failure policy says. */
  datatype Policy = Policy(processing: bool, hides: bool)

  const RETRY_DELAYS: seq<int> := [60, 300, 900, 3600, 10800]
  const WITHHELD_RETRY_DELAYS: seq<int> := [3600, 21600, 86400, 86400, 86400, 86400, 86400, 86400]
  const MAX_REQUEST_FAILURES: nat := 3

  // ---- one attempt ----

  /** The claim schedule has run out, a request has failed too often, or there
      is no point in trying again. */
  predicate GivesUp(before: Row, permanent: bool) {
    || permanent
    || (before.state == Acquiring && before.attempts + 1 > |RETRY_DELAYS|)
    || (before.state != Acquiring && before.failedAttempts + 1 >= MAX_REQUEST_FAILURES)
  }

  function AfterFailure(before: Row, permanent: bool, policy: Policy, now: int): Row {
    var row := before.(attempts := before.attempts + 1, failedAttempts := before.failedAttempts + 1);
    if before.state == Failed then
      var late := before.lateRetries + 1;
      row.(lateRetries := late,
           due := if before.withheld && late < |WITHHELD_RETRY_DELAYS| then Some(now + WITHHELD_RETRY_DELAYS[late]) else None)
    else if GivesUp(before, permanent) then
      var withheld := if policy.processing then policy.hides else before.withheld;
      row.(state := Failed, lateRetries := 0, withheld := withheld,
           due := if policy.processing && policy.hides then Some(now + WITHHELD_RETRY_DELAYS[0]) else None)
    else if before.state == Acquiring then
      row.(state := Discovered, due := Some(now + RETRY_DELAYS[before.attempts]))
    else
      row.(due := None)
  }

  function Recorded(before: Row, outcome: Outcome, policy: Policy, now: int): Row {
    match outcome
    case Succeeded => Row(Ready, before.attempts + 1, 0, 0, None, false, true)
    case Broke(permanent) => AfterFailure(before, permanent, policy, now)
  }

  /** An episode as a preparation holds it; before the attempt its state says
      how it was claimed. */
  class Episode {
    var state: State
    var attempts: nat
    var failedAttempts: nat
    var lateRetries: nat
    var nextAttemptAt: Option<int>
    var withheld: bool
    var cached: bool

    function Fields(): Row
      reads this
    {
      Row(state, attempts, failedAttempts, lateRetries, nextAttemptAt, withheld, cached)
    }

    constructor (row: Row)
      ensures Fields() == row
    {
      state, attempts, failedAttempts, lateRetries := row.state, row.attempts, row.failedAttempts, row.lateRetries;
      nextAttemptAt, withheld, cached := row.due, row.withheld, row.cached;
    }

    /** Whatever prepared the episode, its outcome goes on its row. Both delay
        tables are only looked up in range. */
    method RecordOutcome(outcome: Outcome, policy: Policy, now: int)
      modifies this
      ensures Fields() == Recorded(old(Fields()), outcome, policy, now)
    {
      var claimed, late := state == Acquiring, state == Failed;
      attempts := attempts + 1;
      if outcome.Succeeded? {
        state, cached := Ready, true;
        nextAttemptAt, withheld := None, false;
        failedAttempts, lateRetries := 0, 0;
        return;
      }
      failedAttempts := failedAttempts + 1;
      if late {
        lateRetries := lateRetries + 1;
        nextAttemptAt := None;
        if withheld && lateRetries < |WITHHELD_RETRY_DELAYS| {
          nextAttemptAt := Some(now + WITHHELD_RETRY_DELAYS[lateRetries]);
        }
      } else if outcome.permanent || (claimed && attempts > |RETRY_DELAYS|) || (!claimed && failedAttempts >= MAX_REQUEST_FAILURES) {
        state, nextAttemptAt := Failed, None;
        lateRetries := 0;
        if policy.processing {
          withheld := policy.hides;
          if withheld {
            nextAttemptAt := Some(now + WITHHELD_RETRY_DELAYS[0]);
          }
        }
      } else if claimed {
        state, nextAttemptAt := Discovered, Some(now + RETRY_DELAYS[attempts - 1]);
      } else {
        nextAttemptAt := None;
      }
    }
  }

  /** Success readies the episode, ends its withholding and clears its schedule
      and failures. A failure never readies it; it withholds it only by giving up
      under a policy that hides, and leaves no schedule on one given up on that
      is published. */
  lemma OutcomesMean(before: Row, policy: Policy, now: int, permanent: bool)
    ensures var row := Recorded(before, Succeeded, policy, now);
            && row.state == Ready && row.cached && !row.withheld && row.due.None?
            && row.failedAttempts == 0 && row.lateRetries == 0 && row.attempts == before.attempts + 1
    ensures var row := Recorded(before, Broke(permanent), policy, now);
            && row.cached == before.cached && row.attempts == before.attempts + 1 && row.failedAttempts == before.failedAttempts + 1
            && (row.state == Failed <==>
                  before.state == Failed || permanent || if before.state == Acquiring then before.attempts >= 5 else before.failedAttempts >= 2)
            && (row.state != Failed ==> row.state == if before.state == Acquiring then Discovered else before.state)
            && (row.withheld && !before.withheld ==> before.state != Failed && row.state == Failed && policy == Policy(true, true))
            && (before.withheld && !row.withheld ==> before.state != Failed && row.state == Failed && policy == Policy(true, false))
            && (row.state == Failed && !row.withheld ==> row.due.None?)
  {
  }

  // ---- background work ----

  /** A worker may claim it as a new episode. */
  predicate Waiting(row: Row) {
    row.state == Discovered
  }

  /** A worker may claim it from the queue, once due. */
  predicate Queued(row: Row) {
    row.due.Some? && (row.state == Failed || (row.state == Ready && !row.cached))
  }

  /** A claimed row: taken from the waiting ones, or leased from the queue. */
  function Claimed(row: Row, lease: int): Row
    requires Waiting(row) || Queued(row)
  {
    if Waiting(row) then row.(state := Acquiring) else row.(due := Some(lease))
  }

  datatype Attempt = Attempt(outcome: Outcome, policy: Policy, now: int, lease: int)

  predicate Slow(row: Row) { row.state == Failed }

  /** What a worker's attempt makes of a row it may claim. */
  function Worked(row: Row, a: Attempt): Row
    requires Waiting(row) || Queued(row)
  {
    Recorded(Claimed(row, a.lease), a.outcome, a.policy, a.now)
  }

  /** The row after the attempts, one at a time, each when it may be claimed. */
  ghost predicate Works(row: Row, attempts: seq<Attempt>, last: Row)
    decreases |attempts|
  {
    if attempts == [] then row == last
    else (Waiting(row) || Queued(row)) && Works(Worked(row, attempts[0]), attempts[1..], last)
  }

  /** How many slow retries a row still has coming. */
  function SlowLeft(row: Row): nat {
    if row.state == Failed then
      if row.due.None? then 0
      else if row.withheld then Max(1, |WITHHELD_RETRY_DELAYS| - row.lateRetries)
      else 1
    else if row.state == Processing || (row.state == Ready && (row.cached || row.due.None?)) then 0
    else |WITHHELD_RETRY_DELAYS|
  }

  /** How many attempts it may still get before it is ready or given up on. */
  function FirstLeft(row: Row): nat {
    if row.state in {Discovered, Acquiring} then Max(1, 6 - row.attempts)
    else if row.state == Ready && !row.cached && row.due.Some? then 1
    else 0
  }

  lemma AttemptUsesUp(row: Row, a: Attempt)
    requires Waiting(row) || Queued(row)
    ensures Slow(row) ==> Worked(row, a).state in {Failed, Ready} && FirstLeft(Worked(row, a)) == 0
    ensures Slow(row) ==> SlowLeft(Worked(row, a)) < SlowLeft(row)
    ensures !Slow(row) ==> FirstLeft(Worked(row, a)) < FirstLeft(row) && SlowLeft(Worked(row, a)) <= SlowLeft(row)
  {
  }

  function CountSlow(row: Row, attempts: seq<Attempt>): (n: nat)
    ensures n <= |attempts|
    decreases |attempts|
  {
    if attempts == [] || !(Waiting(row) || Queued(row)) then 0
    else (if Slow(row) then 1 else 0) + CountSlow(Worked(row, attempts[0]), attempts[1..])
  }

  /** Background work on an episode ends: left alone otherwise, no row gets
      more attempts than these counts, which every attempt runs down. */
  lemma {:induction false} WorkEnds(row: Row, attempts: seq<Attempt>, last: Row)
    requires Works(row, attempts, last)
    ensures CountSlow(row, attempts) <= SlowLeft(row)
    ensures |attempts| - CountSlow(row, attempts) <= FirstLeft(row)
    decreases |attempts|
  {
    if attempts != [] {
      AttemptUsesUp(row, attempts[0]);
      WorkEnds(Worked(row, attempts[0]), attempts[1..], last);
    }
  }

  /** A new episode gets at most six attempts on the claim schedule and eight
      slow retries, fourteen in all. */
  lemma NewEpisodeIsDone(row: Row, attempts: seq<Attempt>, last: Row)
    requires row.state == Discovered && row.attempts == 0 && Works(row, attempts, last)
    ensures CountSlow(row, attempts) <= 8 && |attempts| - CountSlow(row, attempts) <= 6
  {
    WorkEnds(row, attempts, last);
  }

  /** After fourteen attempts no worker may take it. */
  lemma NoneAfterFourteen(row: Row, attempts: seq<Attempt>, last: Row)
    requires row.state == Discovered && row.attempts == 0 && Works(row, attempts, last) && |attempts| >= 14
    ensures !Waiting(last) && !Queued(last)
  {
    NothingLeft(row, attempts, last);
  }

  /** What is left after the attempts is what they have not used. */
  lemma {:induction false} NothingLeft(row: Row, attempts: seq<Attempt>, last: Row)
    requires Works(row, attempts, last)
    ensures |attempts| + FirstLeft(last) + SlowLeft(last) <= FirstLeft(row) + SlowLeft(row)
    decreases |attempts|
  {
    if attempts != [] {
      AttemptUsesUp(row, attempts[0]);
      NothingLeft(Worked(row, attempts[0]), attempts[1..], last);
    }
  }

  /** Left is 0 exactly when no worker may claim the row, other than one a
      preparation holds. */
  lemma LeftMeansClaimable(row: Row)
    requires row.state != Acquiring
    ensures FirstLeft(row) + SlowLeft(row) > 0 <==> Waiting(row) || Queued(row)
  {
  }

  // ---- nothing withheld is forgotten ----

  /** Kept out of the feed, an episode has failed, and either a slow retry is
      coming or it has had all eight. */
  predicate Remembered(row: Row) {
    row.withheld ==> row.state == Failed && (row.due.Some? || row.lateRetries >= 8)
  }

  /** However attempts go, background ones and requests', nothing withheld is
      forgotten while it has slow retries left. */
  lemma {:induction false} NothingForgotten(row: Row, attempts: seq<Attempt>, last: Row)
    requires Remembered(row) && Works(row, attempts, last)
    ensures Remembered(last)
    decreases |attempts|
  {
    if attempts != [] {
      OutcomesRemember(Claimed(row, attempts[0].lease), attempts[0].outcome, attempts[0].policy, attempts[0].now);
      NothingForgotten(Worked(row, attempts[0]), attempts[1..], last);
    }
  }

  lemma OutcomesRemember(row: Row, outcome: Outcome, policy: Policy, now: int)
    requires Remembered(row)
    ensures Remembered(Recorded(row, outcome, policy, now))
  {
  }

  // ---- the bound is met ----

  /** A passing failure under a policy that withholds. */
  function Failing(n: nat): (attempts: seq<Attempt>)
    ensures |attempts| == n
  {
    if n == 0 then [] else [Attempt(Broke(false), Policy(true, true), 0, 0)] + Failing(n - 1)
  }

  lemma {:induction false} ClaimsFail(row: Row) returns (last: Row)
    requires row.state == Discovered && row.attempts <= 5
    ensures Works(row, Failing(6 - row.attempts), last)
    ensures last.state == Failed && last.withheld && last.lateRetries == 0 && last.due.Some?
    decreases 6 - row.attempts
  {
    var next := Worked(row, Failing(6 - row.attempts)[0]);
    if row.attempts == 5 {
      last := next;
      assert Failing(1)[1..] == [];
    } else {
      last := ClaimsFail(next);
      assert Failing(6 - row.attempts)[1..] == Failing(6 - next.attempts);
    }
  }

  lemma {:induction false} SlowRetriesFail(row: Row) returns (last: Row)
    requires row.state == Failed && row.withheld && row.lateRetries < 8 && row.due.Some?
    ensures Works(row, Failing(8 - row.lateRetries), last)
    decreases 8 - row.lateRetries
  {
    var next := Worked(row, Failing(8 - row.lateRetries)[0]);
    if row.lateRetries == 7 {
      last := next;
      assert Failing(1)[1..] == [];
    } else {
      last := SlowRetriesFail(next);
      assert Failing(8 - row.lateRetries)[1..] == Failing(8 - next.lateRetries);
    }
  }

  lemma {:induction false} WorksOn(row: Row, a: seq<Attempt>, middle: Row, b: seq<Attempt>, last: Row)
    requires Works(row, a, middle) && Works(middle, b, last)
    ensures Works(row, a + b, last)
    decreases |a|
  {
    if a == [] {
      assert a + b == b;
    } else {
      WorksOn(Worked(row, a[0]), a[1..], middle, b, last);
      assert (a + b)[1..] == a[1..] + b;
    }
  }

  /** Fourteen is no overestimate: an episode that always fails gets them all. */
  lemma AllFourteen(row: Row) returns (attempts: seq<Attempt>, last: Row)
    requires row.state == Discovered && row.attempts == 0
    ensures |attempts| == 14 && Works(row, attempts, last)
  {
    var middle := ClaimsFail(row);
    last := SlowRetriesFail(middle);
    attempts := Failing(6) + Failing(8);
    WorksOn(row, Failing(6), middle, Failing(8), last);
  }
}
