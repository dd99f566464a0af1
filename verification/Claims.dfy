/** The table of episodes: how workers and requests take episodes from it, each
    in one transaction. */
module Claims {
  import opened Common
  import opened Retries

  datatype Stored = Stored(row: Row, feed: nat, hidden: bool, dropped: bool, publishedAt: Option<int>, createdAt: int)

  type Table = map<nat, Stored>

  // ---- who may be taken ----

  /** A new episode whose retry time has come. */
  predicate IsNext(e: Stored, now: int, feeds: set<nat>) {
    && e.feed in feeds && !e.hidden && !e.dropped
    && Waiting(e.row) && (e.row.due.None? || e.row.due.value <= now)
  }

  /** An episode in the queue whose time has come. */
  predicate IsDue(e: Stored, now: int) {
    !e.hidden && !e.dropped && Queued(e.row) && e.row.due.value <= now
  }

  // ---- who goes first ----

  /** Compared part by part, the first that differs deciding. */
  predicate Before(a: seq<int>, b: seq<int>)
    requires |a| == |b|
  {
    a != [] && (a[0] < b[0] || (a[0] == b[0] && Before(a[1..], b[1..])))
  }

  /** Oldest first, undated ones last. */
  function NextKey(e: Stored): (key: seq<int>)
    ensures |key| == 4
  {
    if e.publishedAt.None? then [1, 0, e.createdAt, 0] else [0, e.publishedAt.value, e.createdAt, 0]
  }

  /** Queued longest first; of those, newest first. */
  function DueKey(e: Stored): (key: seq<int>)
    ensures |key| == 4
  {
    var due := if e.row.due.Some? then e.row.due.value else 0;
    if e.publishedAt.None? then [due, 1, 0, -e.createdAt] else [due, 0, -e.publishedAt.value, -e.createdAt]
  }

  /** Neither is known to be older: the dated before the undated, of dated ones
      the one published earlier, and otherwise the one found earlier. */
  predicate NoLaterThan(a: Stored, b: Stored) {
    match (a.publishedAt, b.publishedAt)
    case (Some(x), Some(y)) => x < y || (x == y && a.createdAt <= b.createdAt)
    case (Some(_), None) => true
    case (None, Some(_)) => false
    case (None, None) => a.createdAt <= b.createdAt
  }

  lemma OldestFirst(a: Stored, b: Stored)
    ensures NoLaterThan(a, b) <==> !Before(NextKey(b), NextKey(a))
  {
    Compared(NextKey(b), NextKey(a));
  }

  /** a has been due longer; or as long, and b is no newer: undated, published
      earlier, or published then and found no later. */
  predicate QueuedNoLess(a: Stored, b: Stored)
    requires a.row.due.Some? && b.row.due.Some?
  {
    || a.row.due.value < b.row.due.value
    || (a.row.due == b.row.due
        && match (a.publishedAt, b.publishedAt)
           case (Some(x), Some(y)) => x > y || (x == y && a.createdAt >= b.createdAt)
           case (Some(_), None) => true
           case (None, Some(_)) => false
           case (None, None) => a.createdAt >= b.createdAt)
  }

  lemma LongestQueuedFirst(a: Stored, b: Stored)
    requires a.row.due.Some? && b.row.due.Some?
    ensures QueuedNoLess(a, b) <==> !Before(DueKey(b), DueKey(a))
  {
    Compared(DueKey(b), DueKey(a));
  }

  lemma Compared(a: seq<int>, b: seq<int>)
    requires |a| == |b| == 4
    ensures Before(a, b) <==> || a[0] < b[0]
                              || (a[0] == b[0] && (|| a[1] < b[1]
                                                   || (a[1] == b[1] && (a[2] < b[2] || (a[2] == b[2] && a[3] < b[3])))))
  {
    assert Before(a[1..], b[1..]) <==> a[1] < b[1] || (a[1] == b[1] && Before(a[2..], b[2..])) by {
      assert a[1..][1..] == a[2..] && b[1..][1..] == b[2..];
    }
    assert Before(a[2..], b[2..]) <==> a[2] < b[2] || (a[2] == b[2] && Before(a[3..], b[3..])) by {
      assert a[2..][1..] == a[3..] && b[2..][1..] == b[3..];
    }
    assert Before(a[3..], b[3..]) <==> a[3] < b[3];
  }

  /** The first of the candidates, or any of them if several are. */
  method First(rows: Table, candidates: set<nat>, key: Stored -> seq<int>) returns (first: nat)
    requires candidates != {} && candidates <= rows.Keys && forall e :: |key(e)| == 4
    ensures first in candidates
    ensures forall id | id in candidates :: !Before(key(rows[id]), key(rows[first]))
  {
    first :| first in candidates;
    Irreflexive(key(rows[first]));
    var left := candidates - {first};
    while left != {}
      invariant left <= candidates && first in candidates
      invariant forall id | id in candidates && id !in left :: !Before(key(rows[id]), key(rows[first]))
      decreases |left|
    {
      var id :| id in left;
      left := left - {id};
      if Before(key(rows[id]), key(rows[first])) {
        Irreflexive(key(rows[id]));
        forall x | x in candidates && x !in left
          ensures !Before(key(rows[x]), key(rows[id]))
        {
          if x != id && Before(key(rows[x]), key(rows[id])) {
            BeforeIsTransitive(key(rows[x]), key(rows[id]), key(rows[first]));
          }
        }
        first := id;
      }
    }
  }

  lemma {:induction false} Irreflexive(a: seq<int>)
    ensures !Before(a, a)
  {
    if a != [] {
      Irreflexive(a[1..]);
    }
  }

  lemma {:induction false} BeforeIsTransitive(a: seq<int>, b: seq<int>, c: seq<int>)
    requires |a| == |b| == |c| && Before(a, b) && Before(b, c)
    ensures Before(a, c)
  {
    if a[0] == b[0] == c[0] {
      BeforeIsTransitive(a[1..], b[1..], c[1..]);
    }
  }

  // ---- taking ----

  function Taken(rows: Table, id: nat): Table
    requires id in rows
  {
    rows[id := rows[id].(row := rows[id].row.(state := Acquiring))]
  }

  function Leased(rows: Table, id: nat, lease: int): Table
    requires id in rows
  {
    rows[id := rows[id].(row := rows[id].row.(due := Some(lease)))]
  }

  function LeasedAll(rows: Table, ids: seq<nat>, lease: int): Table {
    map id | id in rows :: if id in ids then Leased(rows, id, lease)[id] else rows[id]
  }

  /** The rest of a batch: one feed's episodes due, but for the one claimed already. */
  function Batch(rows: Table, now: int, feed: nat, except: nat): set<nat> {
    set id | id in rows && rows[id].feed == feed && id != except && IsDue(rows[id], now)
  }

  /** The first few of the candidates, in the order of the queue, each once;
      fewer than limit only if they are all there. */
  ghost predicate FirstOf(rows: Table, ids: seq<nat>, candidates: set<nat>, limit: int)
    requires candidates <= rows.Keys
  {
    && |ids| <= (if limit > 0 then limit else 0)
    && (forall id | id in ids :: id in candidates)
    && (forall i, j | 0 <= i < j < |ids| :: ids[i] != ids[j])
    && (|ids| < limit ==> forall id | id in candidates :: id in ids)
    && (forall id | id in candidates :: rows[id].row.due.Some?)
    && (forall id, x | id in ids && x in candidates && x !in ids :: QueuedNoLess(rows[id], rows[x]))
  }

  method FirstFew(rows: Table, candidates: set<nat>, limit: nat) returns (ids: seq<nat>)
    requires candidates <= rows.Keys && forall id | id in candidates :: rows[id].row.due.Some?
    ensures FirstOf(rows, ids, candidates, limit)
  {
    ids := [];
    var left := candidates;
    while |ids| < limit && left != {}
      invariant |ids| <= limit && left <= candidates
      invariant forall id :: id in left <==> id in candidates && id !in ids
      invariant forall id | id in ids :: id in candidates
      invariant forall i, j | 0 <= i < j < |ids| :: ids[i] != ids[j]
      invariant forall id, x | id in ids && x in left :: !Before(DueKey(rows[x]), DueKey(rows[id]))
      decreases |left|
    {
      hide DueKey, Before;
      var id := First(rows, left, DueKey);
      assert id !in ids;
      left := left - {id};
      ids := ids + [id];
    }
    forall id, x | id in ids && x in candidates && x !in ids
      ensures QueuedNoLess(rows[id], rows[x])
    {
      LongestQueuedFirst(rows[id], rows[x]);
    }
  }

  class Store {
    var rows: Table

    constructor (rows: Table)
      ensures this.rows == rows
    {
      this.rows := rows;
    }

    /** The oldest waiting episode becomes acquiring, and is no worker's to take
        from then on. */
    method ClaimNextEpisode(now: int, feeds: set<nat>) returns (claimed: Option<nat>)
      modifies this
      ensures claimed.None? <==> forall id | id in old(rows) :: !IsNext(old(rows)[id], now, feeds)
      ensures claimed.None? ==> rows == old(rows)
      ensures claimed.Some? ==>
                var id := claimed.value;
                && id in old(rows) && IsNext(old(rows)[id], now, feeds) && rows == Taken(old(rows), id)
                && (forall x | x in old(rows) && IsNext(old(rows)[x], now, feeds) :: NoLaterThan(old(rows)[id], old(rows)[x]))
                && (forall t, any :: !IsNext(rows[id], t, any)) && forall t :: !IsDue(rows[id], t)
    {
      var waiting := set id | id in rows && IsNext(rows[id], now, feeds);
      if waiting == {} {
        assert forall id | id in rows && IsNext(rows[id], now, feeds) :: id in waiting;
        return None;
      }
      var id := First(rows, waiting, NextKey);
      forall x | x in rows && IsNext(rows[x], now, feeds)
        ensures NoLaterThan(rows[id], rows[x])
      {
        OldestFirst(rows[id], rows[x]);
        assert x in waiting;
      }
      rows := Taken(rows, id);
      assert rows[id].row.state == Acquiring;
      claimed := Some(id);
    }

    /** The episode queued longest is leased: its state stays, and it is due
        again when the lease ends, not before. */
    method ClaimQueuedEpisode(now: int, lease: int, feeds: set<nat>) returns (claimed: Option<nat>)
      modifies this
      ensures claimed.None? <==> forall id | id in old(rows) :: !(old(rows)[id].feed in feeds && IsDue(old(rows)[id], now))
      ensures claimed.None? ==> rows == old(rows)
      ensures claimed.Some? ==>
                var id := claimed.value;
                && id in old(rows) && old(rows)[id].feed in feeds && IsDue(old(rows)[id], now) && rows == Leased(old(rows), id, lease)
                && (forall x | x in old(rows) && old(rows)[x].feed in feeds && IsDue(old(rows)[x], now) :: QueuedNoLess(old(rows)[id], old(rows)[x]))
                && rows[id].row.state == old(rows)[id].row.state && forall t :: IsDue(rows[id], t) <==> t >= lease
    {
      var due := set id | id in rows && rows[id].feed in feeds && IsDue(rows[id], now);
      if due == {} {
        assert forall id | id in rows && rows[id].feed in feeds && IsDue(rows[id], now) :: id in due;
        return None;
      }
      var id := First(rows, due, DueKey);
      forall x | x in rows && rows[x].feed in feeds && IsDue(rows[x], now)
        ensures QueuedNoLess(rows[id], rows[x])
      {
        LongestQueuedFirst(rows[id], rows[x]);
        assert x in due;
      }
      rows := Leased(rows, id, lease);
      claimed := Some(id);
    }

    /** A batch is filled up: the feed's due episodes are leased, or as many of
        the first of them as are wanted. */
    method ClaimQueuedEpisodesForFeed(now: int, lease: int, feed: nat, except: nat, limit: int) returns (claimed: seq<nat>)
      modifies this
      ensures FirstOf(old(rows), claimed, Batch(old(rows), now, feed, except), limit)
      ensures rows == LeasedAll(old(rows), claimed, lease)
    {
      claimed := [];
      if limit > 0 {
        claimed := FirstFew(rows, Batch(rows, now, feed, except), limit);
      }
      rows := LeasedAll(rows, claimed, lease);
    }

    /** A client has asked for the episode: it becomes acquiring if it is
        waiting, whatever its retry time. */
    method ClaimEpisode(id: nat) returns (ok: bool)
      modifies this
      ensures ok <==> id in old(rows) && Waiting(old(rows)[id].row)
      ensures rows == if ok then Taken(old(rows), id) else old(rows)
    {
      ok := id in rows && rows[id].row.state == Discovered;
      if ok {
        rows := Taken(rows, id);
      }
    }

    /** Episodes a crash left acquiring are waiting again. */
    method ResetInterruptedEpisodes() returns (count: nat)
      modifies this
      ensures rows.Keys == old(rows).Keys
      ensures forall id | id in rows :: rows[id] == Interrupted(old(rows)[id])
      ensures forall id | id in rows ::
          if old(rows)[id].row.state == Acquiring then Waiting(rows[id].row) && rows[id].row.due == old(rows)[id].row.due
          else rows[id] == old(rows)[id]
      ensures count == |set id | id in old(rows) && old(rows)[id].row.state == Acquiring|
    {
      var interrupted := set id | id in rows && rows[id].row.state == Acquiring;
      rows := map id | id in rows :: Interrupted(rows[id]);
      count := |interrupted|;
    }
  }

  function Interrupted(e: Stored): Stored {
    if e.row.state == Acquiring then e.(row := e.row.(state := Discovered)) else e
  }

  // ---- when it may be taken again ----

  const HOUR: int := 3600

  /** After a worker's attempt a retry waits its time out: a failed claim one
      minute, then five, fifteen, sixty and a hundred and eighty; a withheld
      episode one hour, then six, then a day each. Nobody takes an episode that
      is ready, or one given up on that is published. */
  lemma RetryWaits(e: Stored, a: Attempt, t: int, feeds: set<nat>)
    requires Waiting(e.row) || Queued(e.row)
    ensures var after := e.(row := Worked(e.row, a));
            && (IsNext(after, t, feeds) ==>
                  && a.outcome == Broke(false) && e.row.state == Discovered && e.row.attempts < 5
                  && t >= a.now + 60 * [1, 5, 15, 60, 180][e.row.attempts])
            && (IsDue(after, t) ==>
                  && a.outcome.Broke? && after.row.state == Failed && after.row.withheld && after.row.lateRetries < 8
                  && t >= a.now + HOUR * if after.row.lateRetries == 0 then 1 else if after.row.lateRetries == 1 then 6 else 24)
  {
  }

  /** It is taken when that time has come, while its feed's rules and its source
      leave it in place. */
  lemma RetryComes(e: Stored, a: Attempt, feeds: set<nat>)
    requires (Waiting(e.row) || Queued(e.row)) && a.outcome.Broke? && e.feed in feeds && !e.hidden && !e.dropped
    ensures var after := e.(row := Worked(e.row, a));
            && (e.row.state == Discovered && e.row.attempts < 5 && !a.outcome.permanent ==>
                  IsNext(after, a.now + 60 * [1, 5, 15, 60, 180][e.row.attempts], feeds))
            && (e.row.state == Discovered && (e.row.attempts >= 5 || a.outcome.permanent) && a.policy == Policy(true, true) ==>
                  after.row.withheld && IsDue(after, a.now + HOUR))
            && (e.row.state == Failed && e.row.withheld && e.row.lateRetries < 7 ==>
                  after.row.withheld && IsDue(after, a.now + HOUR * if e.row.lateRetries == 0 then 6 else 24))
  {
  }
}
