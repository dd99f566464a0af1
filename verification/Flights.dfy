/** One preparation of an episode at a time: workers, batches and clients'
    requests, whatever order they take their steps in. */
module Flights {
  import opened Common
  import opened Retries
  import opened Claims

  /** What the pipeline's mutex guards, and the channels: which flight an
      episode has, how many channels were made, which are closed. */
  datatype Board = Board(inFlight: map<nat, nat>, made: nat, closed: set<nat>)

  // ---- the mutex sections ----

  /** A flight for the episode, with a new channel, unless it has one. */
  function Launched(b: Board, id: nat): (Board, Option<nat>) {
    if id in b.inFlight then (b, None)
    else (b.(inFlight := b.inFlight[id := b.made], made := b.made + 1), Some(b.made))
  }

  /** The flight is over, if the episode's is this one. */
  function Landed(b: Board, id: nat, done: nat): Board {
    if id in b.inFlight && b.inFlight[id] == done then b.(inFlight := b.inFlight - {id}) else b
  }

  /** Those waiting for it wake. */
  function Woken(b: Board, done: nat): Board {
    b.(closed := b.closed + {done})
  }

  datatype Asked = Joined(done: nat) | Started(done: nat) | Busy

  /** What a request does: join the flight there is, or start one, claiming
      the episode if it is waiting. seen is its state as the client read it. */
  function Requested(b: Board, rows: Table, id: nat, seen: State, stopped: bool): (Board, Table, Asked) {
    if id in b.inFlight then (b, rows, Joined(b.inFlight[id]))
    else if stopped then (b, rows, Busy)
    else if seen == Ready then
      (Launched(b, id).0, rows, Started(b.made))
    else if seen == Discovered && id in rows && Waiting(rows[id].row) then
      (Launched(b, id).0, Taken(rows, id), Started(b.made))
    else (b, rows, Busy)
  }

  class Pipeline {
    const store: Store
    var inFlight: map<nat, nat>
    var made: nat
    var closed: set<nat>
    var stopped: bool

    function Guarded(): Board
      reads this
    {
      Board(inFlight, made, closed)
    }

    constructor (store: Store)
      ensures this.store == store && Guarded() == Board(map[], 0, {}) && !stopped
    {
      this.store, inFlight, made, closed, stopped := store, map[], 0, {}, false;
    }

    method StartFlight(id: nat) returns (done: Option<nat>)
      modifies this
      ensures (Guarded(), done) == Launched(old(Guarded()), id) && stopped == old(stopped)
    {
      if id in inFlight {
        return None;
      }
      done := Some(made);
      made := made + 1;
      inFlight := inFlight[id := done.value];
    }

    /** Closing a channel a second time would be fatal. */
    method EndFlight(id: nat, done: nat)
      requires done !in closed
      modifies this
      ensures Guarded() == Woken(Landed(old(Guarded()), id, done), done) && stopped == old(stopped)
    {
      if id in inFlight && inFlight[id] == done {
        inFlight := inFlight - {id};
      }
      closed := closed + {done};
    }

    method Prepare(id: nat, seen: State) returns (asked: Asked)
      modifies this, store
      ensures (Guarded(), store.rows, asked) == Requested(old(Guarded()), old(store.rows), id, seen, stopped)
      ensures stopped == old(stopped)
    {
      if id in inFlight {
        return Joined(inFlight[id]);
      }
      if stopped {
        return Busy;
      }
      match seen {
        case Ready =>
        case Discovered =>
          var ok := store.ClaimEpisode(id);
          if !ok {
            return Busy;
          }
        case _ => return Busy;
      }
      asked := Started(made);
      inFlight := inFlight[id := made];
      made := made + 1;
    }
  }

  // ---- every interleaving ----

  datatype Phase =
    | Claimed                // taken from the table, no flight yet
    | Flying(done: nat)      // being prepared
    | Landing(done: nat)     // outcome recorded, or given up on shutdown
    | Leaving(done: nat)     // the flight is off the board, its channel still open

  /** One episode in a worker's, a batch's or a request's hands, with its row
      as it was when taken. */
  datatype Job = Job(id: nat, row: Row, phase: Phase)

  /** waits are the channels clients wait on; seen what they have read. */
  datatype World = World(rows: Table, board: Board, jobs: map<nat, Job>, waits: set<nat>, seen: map<nat, (nat, Row)>, stopped: bool)

  datatype Action =
    | ClaimNext(job: nat, id: nat)
    | ClaimQueued(job: nat, id: nat, lease: int)
    | Launch(job: nat)
    | Look(client: nat, id: nat)
    | Ask(client: nat, job: nat)
    | Record(job: nat, outcome: Outcome, policy: Policy, now: int)
    | GiveUp(job: nat)
    | Land(job: nat)
    | Wake(job: nat)
    | Stop
    | Rewrite(id: nat, stored: Stored)

  predicate Holds(w: World, job: nat, id: nat) {
    job in w.jobs && w.jobs[job].id == id
  }

  predicate Enabled(w: World, a: Action) {
    match a
    case ClaimNext(job, id) => job !in w.jobs && id in w.rows && Waiting(w.rows[id].row)
    case ClaimQueued(job, id, _) => job !in w.jobs && id in w.rows && Queued(w.rows[id].row)
    case Launch(job) => job in w.jobs && w.jobs[job].phase.Claimed?
    case Look(_, id) => id in w.rows
    case Ask(client, job) => job !in w.jobs && client in w.seen
    case Record(job, _, _, _) => job in w.jobs && w.jobs[job].phase.Flying? && w.jobs[job].id in w.rows
    case GiveUp(job) => job in w.jobs && w.jobs[job].phase.Flying?
    case Land(job) => job in w.jobs && w.jobs[job].phase.Landing?
    case Wake(job) => job in w.jobs && w.jobs[job].phase.Leaving?
    case Stop => true
    case Rewrite(id, _) => id in w.rows
  }

  function Next(w: World, a: Action): World
    requires Enabled(w, a)
  {
    match a
    case ClaimNext(job, id) =>
      var rows := Taken(w.rows, id);
      w.(rows := rows, jobs := w.jobs[job := Job(id, rows[id].row, Phase.Claimed)])
    case ClaimQueued(job, id, lease) =>
      var rows := Leased(w.rows, id, lease);
      w.(rows := rows, jobs := w.jobs[job := Job(id, rows[id].row, Phase.Claimed)])
    case Launch(job) =>
      var (board, done) := Launched(w.board, w.jobs[job].id);
      w.(board := board,
      jobs := if done.Some? then w.jobs[job := w.jobs[job].(phase := Flying(done.value))] else w.jobs - {job})
    case Look(client, id) => w.(seen := w.seen[client := (id, w.rows[id].row)])
    case Ask(client, job) =>
      var (id, row) := w.seen[client];
      var (board, rows, asked) := Requested(w.board, w.rows, id, row.state, w.stopped);
      match asked {
        case Busy => w
        case Joined(done) => w.(waits := w.waits + {done})
        case Started(done) =>
          w.(board := board, rows := rows, waits := w.waits + {done},
          jobs := w.jobs[job := Job(id, if row.state == Discovered then rows[id].row else row, Flying(done))])
      }
    case Record(job, outcome, policy, now) =>
      var j := w.jobs[job];
      w.(rows := w.rows[j.id := w.rows[j.id].(row := Recorded(j.row, outcome, policy, now))],
      jobs := w.jobs[job := j.(phase := Landing(j.phase.done))])
    case GiveUp(job) => w.(jobs := w.jobs[job := w.jobs[job].(phase := Landing(w.jobs[job].phase.done))])
    case Land(job) =>
      var j := w.jobs[job];
      w.(board := Landed(w.board, j.id, j.phase.done), jobs := w.jobs[job := j.(phase := Leaving(j.phase.done))])
    case Wake(job) => w.(board := Woken(w.board, w.jobs[job].phase.done), jobs := w.jobs - {job})
    case Stop => w.(stopped := true)
    case Rewrite(id, stored) => w.(rows := w.rows[id := stored])
  }

  /** One action, when it may be taken. */
  predicate Step(w: World, a: Action, v: World) {
    Enabled(w, a) && Next(w, a) == v
  }

  function Fresh(rows: Table): World {
    World(rows, Board(map[], 0, {}), map[], {}, map[], false)
  }

  // ---- flights ----

  predicate OnBoard(p: Phase) { p.Flying? || p.Landing? }

  /** A job that has a channel has it to itself, and it is open; a job in flight
      is its episode's flight. */
  ghost predicate JobsRight(jobs: map<nat, Job>, b: Board) {
    && (forall j | j in jobs && !jobs[j].phase.Claimed? :: jobs[j].phase.done < b.made && jobs[j].phase.done !in b.closed)
    && (forall j | j in jobs && OnBoard(jobs[j].phase) :: jobs[j].id in b.inFlight && b.inFlight[jobs[j].id] == jobs[j].phase.done)
    && (forall i, j | i in jobs && j in jobs && i != j && !jobs[i].phase.Claimed? && !jobs[j].phase.Claimed? ::
          jobs[i].phase.done != jobs[j].phase.done)
  }

  ghost predicate Owned(jobs: map<nat, Job>, done: nat) {
    exists j | j in jobs :: !jobs[j].phase.Claimed? && jobs[j].phase.done == done
  }

  /** The channel is closed, or a job has it. */
  ghost predicate Cared(jobs: map<nat, Job>, b: Board, done: nat) {
    done in b.closed || Owned(jobs, done)
  }

  ghost predicate Flown(jobs: map<nat, Job>, id: nat, done: nat) {
    exists j | j in jobs :: OnBoard(jobs[j].phase) && jobs[j].id == id && jobs[j].phase.done == done
  }

  ghost predicate BoardRight(jobs: map<nat, Job>, b: Board) {
    forall id | id in b.inFlight :: Flown(jobs, id, b.inFlight[id])
  }

  ghost predicate ChannelsRight(jobs: map<nat, Job>, b: Board) {
    forall done: nat | done < b.made :: Cared(jobs, b, done)
  }

  ghost predicate Invariant(w: World) {
    && JobsRight(w.jobs, w.board) && BoardRight(w.jobs, w.board) && ChannelsRight(w.jobs, w.board)
    && (forall done | done in w.waits || done in w.board.closed :: done < w.board.made)
  }

  /** Jobs other than one are as they were. */
  ghost predicate SameBut(a: map<nat, Job>, b: map<nat, Job>, job: nat) {
    forall j | j != job :: (j in a <==> j in b) && (j in a ==> a[j] == b[j])
  }

  lemma FlownStays(before: map<nat, Job>, after: map<nat, Job>, job: nat, id: nat, done: nat)
    requires SameBut(before, after, job) && Flown(before, id, done)
    requires job in before && OnBoard(before[job].phase) && before[job].id == id && before[job].phase.done == done ==>
               job in after && OnBoard(after[job].phase) && after[job].id == id && after[job].phase.done == done
    ensures Flown(after, id, done)
  {
    var j :| j in before && OnBoard(before[j].phase) && before[j].id == id && before[j].phase.done == done;
    assert j in after && after[j].id == id;
  }

  lemma OwnedStays(before: map<nat, Job>, after: map<nat, Job>, job: nat, done: nat)
    requires SameBut(before, after, job) && Owned(before, done)
    requires job in before && !before[job].phase.Claimed? && before[job].phase.done == done ==>
               job in after && !after[job].phase.Claimed? && after[job].phase.done == done
    ensures Owned(after, done)
  {
    var j :| j in before && !before[j].phase.Claimed? && before[j].phase.done == done;
    assert j in after && after[j].phase.done == done;
  }

  /** A job without a channel comes or goes. */
  lemma UnlaunchedJob(before: map<nat, Job>, after: map<nat, Job>, b: Board, job: nat)
    requires SameBut(before, after, job)
    requires (job in before ==> before[job].phase.Claimed?) && (job in after ==> after[job].phase.Claimed?)
    requires JobsRight(before, b) && BoardRight(before, b) && ChannelsRight(before, b)
    ensures JobsRight(after, b) && BoardRight(after, b) && ChannelsRight(after, b)
  {
    hide Flown, Owned;
    forall id | id in b.inFlight
      ensures Flown(after, id, b.inFlight[id])
    {
      FlownStays(before, after, job, id, b.inFlight[id]);
    }
    forall done: nat | done < b.made
      ensures Cared(after, b, done)
    {
      assert Cared(before, b, done);
      if done !in b.closed {
        OwnedStays(before, after, job, done);
      }
    }
  }

  /** A job gets its flight, and the flight a new channel. */
  lemma JobLaunched(before: map<nat, Job>, after: map<nat, Job>, b: Board, job: nat)
    requires SameBut(before, after, job) && (job in before ==> before[job].phase.Claimed?)
    requires job in after && after[job].phase == Flying(b.made) && after[job].id !in b.inFlight
    requires JobsRight(before, b) && BoardRight(before, b) && ChannelsRight(before, b)
    requires forall done | done in b.closed :: done < b.made
    ensures var c := Launched(b, after[job].id).0; JobsRight(after, c) && BoardRight(after, c) && ChannelsRight(after, c)
  {
    var c := Launched(b, after[job].id).0;
    assert Flown(after, after[job].id, b.made) && Owned(after, b.made);
    hide Flown, Owned;
    forall id | id in c.inFlight
      ensures Flown(after, id, c.inFlight[id])
    {
      if id != after[job].id {
        FlownStays(before, after, job, id, b.inFlight[id]);
      }
    }
    forall done: nat | done < c.made
      ensures Cared(after, c, done)
    {
      if done < b.made {
        assert Cared(before, b, done);
        if done !in b.closed {
          OwnedStays(before, after, job, done);
        }
      }
    }
    assert JobsRight(after, c) by {
      hide BoardRight, ChannelsRight;
    }
  }

  /** A job keeps its channel while it records its outcome, or leaves the board. */
  lemma JobMoved(before: map<nat, Job>, after: map<nat, Job>, b: Board, c: Board, job: nat)
    requires job in before && job in after && SameBut(before, after, job) && after[job].id == before[job].id
    requires OnBoard(before[job].phase) && !after[job].phase.Claimed? && after[job].phase.done == before[job].phase.done
    requires c == if OnBoard(after[job].phase) then b else Landed(b, before[job].id, before[job].phase.done)
    requires JobsRight(before, b) && BoardRight(before, b) && ChannelsRight(before, b)
    ensures JobsRight(after, c) && BoardRight(after, c) && ChannelsRight(after, c)
  {
    hide Flown, Owned;
    forall id | id in c.inFlight
      ensures Flown(after, id, c.inFlight[id])
    {
      FlownStays(before, after, job, id, b.inFlight[id]);
    }
    forall done: nat | done < c.made
      ensures Cared(after, c, done)
    {
      assert Cared(before, b, done);
      if done !in b.closed {
        OwnedStays(before, after, job, done);
      }
    }
    assert JobsRight(after, c) by {
      hide BoardRight, ChannelsRight;
    }
  }

  /** Its channel is closed, and it is gone. */
  lemma JobLeft(before: map<nat, Job>, b: Board, job: nat)
    requires job in before && before[job].phase.Leaving?
    requires JobsRight(before, b) && BoardRight(before, b) && ChannelsRight(before, b)
    ensures var after, c := before - {job}, Woken(b, before[job].phase.done);
            JobsRight(after, c) && BoardRight(after, c) && ChannelsRight(after, c)
  {
    hide Flown, Owned;
    var after := before - {job};
    var c := Woken(b, before[job].phase.done);
    forall id | id in c.inFlight
      ensures Flown(after, id, c.inFlight[id])
    {
      FlownStays(before, after, job, id, b.inFlight[id]);
    }
    forall done: nat | done < c.made
      ensures Cared(after, c, done)
    {
      assert Cared(before, b, done);
      if done !in c.closed {
        OwnedStays(before, after, job, done);
      }
    }
    assert JobsRight(after, c) by {
      hide BoardRight, ChannelsRight;
    }
  }

  lemma AskKeeps(w: World, a: Action)
    requires Invariant(w) && a.Ask? && Enabled(w, a)
    ensures Invariant(Next(w, a))
  {
    hide JobsRight, BoardRight, ChannelsRight;
    var v := Next(w, a);
    var (id, row) := w.seen[a.client];
    if id in w.board.inFlight {
      FlightsMade(w, id);
    } else if Requested(w.board, w.rows, id, row.state, w.stopped).2.Started? {
      JobLaunched(w.jobs, v.jobs, w.board, a.job);
    }
  }

  lemma FlightKeeps(w: World, a: Action)
    requires Invariant(w) && (a.Record? || a.GiveUp? || a.Land? || a.Wake?) && Enabled(w, a)
    ensures Invariant(Next(w, a))
  {
    hide JobsRight, BoardRight, ChannelsRight;
    var v := Next(w, a);
    if a.Wake? {
      ChannelMade(w, a.job);
      JobLeft(w.jobs, w.board, a.job);
    } else {
      JobMoved(w.jobs, v.jobs, w.board, v.board, a.job);
    }
  }

  lemma ClaimKeeps(w: World, a: Action)
    requires Invariant(w) && (a.ClaimNext? || a.ClaimQueued? || a.Launch?) && Enabled(w, a)
    ensures Invariant(Next(w, a))
  {
    hide JobsRight, BoardRight, ChannelsRight;
    var v := Next(w, a);
    if a.Launch? && w.jobs[a.job].id !in w.board.inFlight {
      JobLaunched(w.jobs, v.jobs, w.board, a.job);
    } else {
      UnlaunchedJob(w.jobs, v.jobs, w.board, a.job);
    }
  }

  lemma StepKeeps(w: World, a: Action)
    requires Invariant(w) && Enabled(w, a)
    ensures Invariant(Next(w, a))
  {
    if a.Ask? {
      AskKeeps(w, a);
    } else if a.Record? || a.GiveUp? || a.Land? || a.Wake? {
      FlightKeeps(w, a);
    } else if a.ClaimNext? || a.ClaimQueued? || a.Launch? {
      ClaimKeeps(w, a);
    } else {
      hide JobsRight, BoardRight, ChannelsRight;
    }
  }

  lemma FlightsMade(w: World, id: nat)
    requires Invariant(w) && id in w.board.inFlight
    ensures w.board.inFlight[id] < w.board.made
  {
    assert Flown(w.jobs, id, w.board.inFlight[id]);
  }

  lemma ChannelMade(w: World, job: nat)
    requires Invariant(w) && job in w.jobs && !w.jobs[job].phase.Claimed?
    ensures w.jobs[job].phase.done < w.board.made && w.jobs[job].phase.done !in w.board.closed
  {
  }

  /** Whatever order the steps come in, and whatever else writes the table: no
      episode is being prepared twice at once. */
  lemma {:induction false} OneFlightEach(rows: Table, actions: seq<Action>, w: World, i: nat, j: nat)
    requires Leads(Step, Fresh(rows), actions, w)
    requires i in w.jobs && j in w.jobs && w.jobs[i].phase.Flying? && w.jobs[j].phase.Flying? && w.jobs[i].id == w.jobs[j].id
    ensures i == j
  {
    EveryRunKeeps(rows, actions, w);
  }

  lemma {:induction false} EveryRunKeeps(rows: Table, actions: seq<Action>, w: World)
    requires Leads(Step, Fresh(rows), actions, w)
    ensures Invariant(w)
  {
    if actions != [] {
      var before := LastStep(Step, Fresh(rows), actions, w);
      EveryRunKeeps(rows, actions[..|actions| - 1], before);
      StepKeeps(before, actions[|actions| - 1]);
    }
  }

  /** A channel is never closed twice; whoever waits on one has been woken, or
      a job that will close it is under way. */
  lemma EveryWaiterWakes(rows: Table, actions: seq<Action>, w: World)
    requires Leads(Step, Fresh(rows), actions, w)
    ensures forall job | job in w.jobs && Enabled(w, Wake(job)) :: w.jobs[job].phase.done !in w.board.closed
    ensures forall done | done in w.waits :: Cared(w.jobs, w.board, done)
    ensures (forall job | job in w.jobs :: w.jobs[job].phase.Claimed?) ==> w.waits <= w.board.closed
  {
    EveryRunKeeps(rows, actions, w);
    forall done | done in w.waits && forall job | job in w.jobs :: w.jobs[job].phase.Claimed?
      ensures done in w.board.closed
    {
      assert Cared(w.jobs, w.board, done);
    }
  }

  // ---- claims ----

  predicate Settled(row: Row) { row.state == Ready || row.state == Failed }

  /** It took the episode and has not recorded an outcome. */
  predicate Holding(j: Job) { j.phase.Claimed? || j.phase.Flying? }

  /** No job has the episode, and no client that read it as ready may yet have
      it prepared as it was then. */
  predicate Unheld(w: World, id: nat) {
    && (forall j | j in w.jobs && w.jobs[j].id == id :: !Holding(w.jobs[j]))
    && (w.stopped || forall c | c in w.seen && w.seen[c].0 == id :: w.seen[c].1.state != Ready)
  }

  /** A job has the episode and made it acquiring. */
  predicate Claimer(j: Job, id: nat) {
    j.id == id && Holding(j) && j.row.state == Acquiring
  }

  predicate Unclaimed(jobs: map<nat, Job>, id: nat) {
    forall j | j in jobs :: !Claimer(jobs[j], id)
  }

  /** What else writes the table may leave an episode's state as it is; may make
      it new if it is unheld; may make it acquiring; and may make it anything
      else unless a claimer has it. */
  predicate Tame(w: World, a: Action) {
    a.Rewrite? && a.id in w.rows ==>
      var before, after := w.rows[a.id].row, a.stored.row;
      || before.state == after.state
      || (if Waiting(after) then Unheld(w, a.id) else after.state == Acquiring || Unclaimed(w.jobs, a.id))
  }

  predicate TameStep(w: World, a: Action, v: World) {
    Step(w, a, v) && Tame(w, a)
  }

  /** A job that made an episode acquiring has it to itself, and it stays so. */
  ghost predicate OneEach(w: World) {
    forall i | i in w.jobs && Holding(w.jobs[i]) && w.jobs[i].row.state == Acquiring ::
      && w.jobs[i].id in w.rows && w.rows[w.jobs[i].id].row.state == Acquiring
      && forall j | j in w.jobs && Holding(w.jobs[j]) && w.jobs[j].id == w.jobs[i].id :: j == i
  }

  /** A claimer has the episode to itself, and its row says so; another
      holder's episode is not waiting. */
  ghost predicate ClaimsRight(jobs: map<nat, Job>, rows: Table) {
    && (forall j | j in jobs && Holding(jobs[j]) ::
          && jobs[j].id in rows
          && if jobs[j].row.state == Acquiring then rows[jobs[j].id].row.state == Acquiring
             else Settled(jobs[j].row) && !Waiting(rows[jobs[j].id].row))
    && (forall i, j | i in jobs && j in jobs && i != j && Holding(jobs[i]) && Holding(jobs[j]) && jobs[i].id == jobs[j].id ::
          jobs[i].row.state != Acquiring)
  }

  /** While requests are still taken, what a client has read as ready is not
      waiting, and no claimer has it. */
  ghost predicate SeenRight(w: World) {
    w.stopped || forall c | c in w.seen && w.seen[c].1.state == Ready ::
      w.seen[c].0 in w.rows && !Waiting(w.rows[w.seen[c].0].row) && Unclaimed(w.jobs, w.seen[c].0)
  }

  ghost predicate TameInvariant(w: World) {
    Invariant(w) && ClaimsRight(w.jobs, w.rows) && SeenRight(w)
  }

  lemma RecordedSettles(row: Row, outcome: Outcome, policy: Policy, now: int)
    requires Settled(row)
    ensures Settled(Recorded(row, outcome, policy, now))
  {
  }

  lemma ClaimStepKeeps(w: World, a: Action)
    requires ClaimsRight(w.jobs, w.rows) && SeenRight(w)
    requires Enabled(w, a) && (a.ClaimNext? || a.ClaimQueued? || a.Launch?)
    ensures ClaimsRight(Next(w, a).jobs, Next(w, a).rows) && SeenRight(Next(w, a))
  {
  }

  lemma AskStepKeeps(w: World, a: Action)
    requires ClaimsRight(w.jobs, w.rows) && SeenRight(w)
    requires Enabled(w, a) && a.Ask?
    ensures ClaimsRight(Next(w, a).jobs, Next(w, a).rows) && SeenRight(Next(w, a))
  {
  }

  lemma RecordStepKeeps(w: World, a: Action)
    requires ClaimsRight(w.jobs, w.rows) && SeenRight(w)
    requires Enabled(w, a) && a.Record?
    ensures ClaimsRight(Next(w, a).jobs, Next(w, a).rows) && SeenRight(Next(w, a))
  {
    hide Recorded;
    var j := w.jobs[a.job];
    if Settled(j.row) {
      RecordedSettles(j.row, a.outcome, a.policy, a.now);
    }
  }

  lemma OtherStepKeeps(w: World, a: Action)
    requires ClaimsRight(w.jobs, w.rows) && SeenRight(w) && Tame(w, a)
    requires Enabled(w, a) && !(a.ClaimNext? || a.ClaimQueued? || a.Launch? || a.Ask? || a.Record?)
    ensures ClaimsRight(Next(w, a).jobs, Next(w, a).rows) && SeenRight(Next(w, a))
  {
  }

  lemma TameStepKeeps(w: World, a: Action)
    requires TameInvariant(w) && Enabled(w, a) && Tame(w, a)
    ensures TameInvariant(Next(w, a))
  {
    StepKeeps(w, a);
    hide Invariant, ClaimsRight, SeenRight;
    if a.Record? {
      RecordStepKeeps(w, a);
    } else if a.Ask? {
      AskStepKeeps(w, a);
    } else if a.ClaimNext? || a.ClaimQueued? || a.Launch? {
      ClaimStepKeeps(w, a);
    } else {
      OtherStepKeeps(w, a);
    }
  }

  lemma {:induction false} TameRunKeeps(w: World, actions: seq<Action>, v: World)
    requires TameInvariant(w) && Leads(TameStep, w, actions, v)
    ensures TameInvariant(v)
  {
    if actions != [] {
      var before := LastStep(TameStep, w, actions, v);
      TameRunKeeps(w, actions[..|actions| - 1], before);
      TameStepKeeps(before, actions[|actions| - 1]);
    }
  }

  lemma InvariantMeansOneEach(w: World)
    requires TameInvariant(w)
    ensures OneEach(w)
  {
  }

  /** A new episode is made acquiring by one claimer: over every interleaving,
      and whatever is written tamely besides, a job that made it so has it to
      itself, and it stays acquiring. */
  lemma OneClaimer(rows: Table, actions: seq<Action>, w: World)
    requires Leads(TameStep, Fresh(rows), actions, w)
    ensures OneEach(w)
  {
    TameRunIsRight(rows, actions, w);
    InvariantMeansOneEach(w);
  }

  // ---- what tame leaves out ----

  lemma OneStep(w: World, a: Action) returns (v: World)
    requires Enabled(w, a) && !a.Rewrite?
    ensures v == Next(w, a) && Leads(TameStep, w, [a], v)
  {
    v := Next(w, a);
    assert Leads(TameStep, w, [], w);
    LeadsOn(TameStep, w, [], w, a, v);
    assert [] + [a] == [a];
  }

  /** A new episode that another job holds already is claimed besides. */
  lemma ClaimedBesides(w: World, id: nat, holder: nat) returns (more: seq<Action>, v: World)
    requires id in w.rows && Waiting(w.rows[id].row)
    requires holder in w.jobs && w.jobs[holder].id == id && Holding(w.jobs[holder])
    ensures Leads(TameStep, w, more, v) && !OneEach(v)
  {
    var job := FreshNumber(w.jobs.Keys);
    more := [ClaimNext(job, id)];
    v := OneStep(w, more[0]);
    assert Holding(v.jobs[job]) && v.jobs[job].row.state == Acquiring;
    assert Holding(v.jobs[holder]) && holder != job;
  }

  /** What is left of a flight on the board lands. */
  lemma FlightLands(w: World, id: nat) returns (more: seq<Action>, v: World)
    requires Invariant(w) && forall j | j in w.jobs && w.jobs[j].id == id :: !Holding(w.jobs[j])
    ensures Leads(TameStep, w, more, v) && id !in v.board.inFlight
    ensures v.rows == w.rows && v.seen == w.seen && v.stopped == w.stopped
  {
    if id in w.board.inFlight {
      assert Flown(w.jobs, id, w.board.inFlight[id]);
      var j :| j in w.jobs && OnBoard(w.jobs[j].phase) && w.jobs[j].id == id && w.jobs[j].phase.done == w.board.inFlight[id];
      assert !Holding(w.jobs[j]);
      more := [Land(j)];
      v := OneStep(w, more[0]);
    } else {
      more, v := [], w;
    }
  }

  /** A client that read the episode as ready has it prepared as it was then,
      while a worker has claimed it as new. */
  lemma PreparedBesides(w: World, id: nat, client: nat) returns (more: seq<Action>, v: World)
    requires Invariant(w) && id in w.rows && Waiting(w.rows[id].row) && !w.stopped
    requires forall j | j in w.jobs && w.jobs[j].id == id :: !Holding(w.jobs[j])
    requires client in w.seen && w.seen[client].0 == id && w.seen[client].1.state == Ready
    ensures Leads(TameStep, w, more, v) && !OneEach(v)
  {
    var landed, u := FlightLands(w, id);
    var claimer := FreshNumber(u.jobs.Keys);
    var claimed := Next(u, ClaimNext(claimer, id));
    LeadsOn(TameStep, w, landed, u, ClaimNext(claimer, id), claimed);
    var asker := FreshNumber(claimed.jobs.Keys);
    v := Next(claimed, Ask(client, asker));
    LeadsOn(TameStep, w, landed + [ClaimNext(claimer, id)], claimed, Ask(client, asker), v);
    more := landed + [ClaimNext(claimer, id)] + [Ask(client, asker)];
    assert Holding(v.jobs[claimer]) && v.jobs[claimer].row.state == Acquiring && v.jobs[claimer].id == id;
    assert Holding(v.jobs[asker]) && v.jobs[asker].id == id && asker != claimer;
  }

  lemma UntameBreaks(w: World, id: nat, stored: Stored) returns (more: seq<Action>, v: World)
    requires TameInvariant(w) && id in w.rows
    requires !Tame(w, Rewrite(id, stored))
    ensures Leads(TameStep, Next(w, Rewrite(id, stored)), more, v) && !OneEach(v)
  {
    var u := Next(w, Rewrite(id, stored));
    if !Waiting(stored.row) {
      var j :| j in w.jobs && Claimer(w.jobs[j], id);
      more, v := [], u;
      assert Holding(v.jobs[j]) && v.jobs[j].row.state == Acquiring;
    } else if j :| j in w.jobs && w.jobs[j].id == id && Holding(w.jobs[j]) {
      more, v := ClaimedBesides(u, id, j);
    } else {
      var c :| c in w.seen && w.seen[c].0 == id && w.seen[c].1.state == Ready;
      more, v := PreparedBesides(u, id, c);
    }
  }

  /** Whatever tame steps follow, one claimer each. */
  ghost predicate StaysOneEach(w: World) {
    forall more: seq<Action>, v: World | Leads(TameStep, w, more, v) :: OneEach(v)
  }

  lemma InvariantStays(w: World)
    requires TameInvariant(w)
    ensures StaysOneEach(w)
  {
    hide Invariant, ClaimsRight, SeenRight, Leads, TameStep, OneEach;
    forall more: seq<Action>, v: World | Leads(TameStep, w, more, v)
      ensures OneEach(v)
    {
      TameRunKeeps(w, more, v);
      InvariantMeansOneEach(v);
    }
  }

  lemma TameRunIsRight(rows: Table, actions: seq<Action>, w: World)
    requires Leads(TameStep, Fresh(rows), actions, w)
    ensures TameInvariant(w)
  {
    TameRunKeeps(Fresh(rows), actions, w);
  }

  lemma UntameDoesNotStay(w: World, id: nat, stored: Stored)
    requires TameInvariant(w) && id in w.rows
    requires !Tame(w, Rewrite(id, stored))
    ensures !StaysOneEach(Next(w, Rewrite(id, stored)))
  {
    hide TameInvariant, Leads, TameStep, OneEach, Tame;
    var more, v := UntameBreaks(w, id, stored);
  }

  /** Exactly when something else may write an episode's state: one claimer each
      survives whatever follows if and only if the write is tame. */
  lemma TameExactly(rows: Table, actions: seq<Action>, w: World, id: nat, stored: Stored)
    requires Leads(TameStep, Fresh(rows), actions, w)
    requires id in w.rows
    ensures StaysOneEach(Next(w, Rewrite(id, stored))) <==> Tame(w, Rewrite(id, stored))
  {
    hide TameInvariant, StaysOneEach, Leads, TameStep, Tame;
    TameRunIsRight(rows, actions, w);
    if Tame(w, Rewrite(id, stored)) {
      TameStepKeeps(w, Rewrite(id, stored));
      InvariantStays(Next(w, Rewrite(id, stored)));
    } else {
      UntameDoesNotStay(w, id, stored);
    }
  }

  /** A worker has leased a failed episode; changed settings restart it before
      its flight is registered; another worker claims it as new. Both have it. */
  lemma RestartWhileLeased(stored: Stored) returns (rows: Table, actions: seq<Action>, w: World)
    requires stored.row.state == Failed && stored.row.due.Some?
    ensures Leads(Step, Fresh(rows), actions, w)
    ensures |actions| == 3 && actions[1] == Rewrite(0, stored.(row := Row(Discovered, 0, 0, 0, None, false, false)))
    ensures 0 in w.jobs && 1 in w.jobs && w.jobs[0].id == w.jobs[1].id && Holding(w.jobs[0]) && Holding(w.jobs[1])
    ensures w.jobs[0].row.state == Failed && w.jobs[1].row.state == Acquiring && !OneEach(w)
  {
    rows := map[0 := stored];
    var a, b, c := ClaimQueued(0, 0, 10), Rewrite(0, stored.(row := Row(Discovered, 0, 0, 0, None, false, false))), ClaimNext(1, 0);
    var start := Fresh(rows);
    var leased := Next(start, a);
    var restarted := Next(leased, b);
    w := Next(restarted, c);
    assert Leads(Step, start, [], start);
    assert Step(start, a, leased) && Step(leased, b, restarted) && Step(restarted, c, w);
    assert w.jobs[0].id == 0 && w.jobs[1].id == 0;
    hide Step, Leads;
    LeadsOn(Step, start, [], start, a, leased);
    LeadsOn(Step, start, [] + [a], leased, b, restarted);
    LeadsOn(Step, start, [] + [a] + [b], restarted, c, w);
    actions := [] + [a] + [b] + [c];
  }
}
