/** What comes of a request: it is served when it can be, and whatever is under
    way can end, with everybody waiting woken. */
module Served {
  import opened Common
  import opened Retries
  import opened Claims
  import opened Flights

  /** A request is turned away only when nothing prepares the episode and either
      the pipeline has stopped, or the episode is not as the client saw it:
      ready, or waiting to be claimed. One that is not joined starts a flight,
      and what waited is acquiring from then on. */
  lemma RequestIsServed(b: Board, rows: Table, id: nat, seen: State, stopped: bool)
    ensures var (after, table, asked) := Requested(b, rows, id, seen, stopped);
            && (asked.Busy? <==>
                  && id !in b.inFlight
                  && (stopped || (seen != Ready && !(seen == Discovered && id in rows && rows[id].row.state == Discovered))))
            && (asked.Joined? <==> id in b.inFlight && asked == Joined(b.inFlight[id]))
            && (asked.Started? ==>
                  && after.inFlight == b.inFlight[id := asked.done] && asked.done == b.made && after.made == b.made + 1
                  && after.closed == b.closed && table.Keys == rows.Keys
                  && (forall x | x in rows && (x != id || seen == Ready) :: table[x] == rows[x])
                  && (seen == Discovered ==> table[id] == rows[id].(row := rows[id].row.(state := Acquiring))))
            && (!asked.Started? ==> after == b && table == rows)
  {
  }

  /** A job whose episode nobody prepares takes off. */
  lemma LaunchFlies(w: World, job: nat)
    requires job in w.jobs && w.jobs[job].phase.Claimed? && w.jobs[job].id !in w.board.inFlight
    ensures var v := Next(w, Launch(job));
            && v.jobs == w.jobs[job := Job(w.jobs[job].id, w.jobs[job].row, Flying(w.board.made))]
            && v.board.inFlight == w.board.inFlight[w.jobs[job].id := w.board.made]
  {
  }

  // ---- what is under way can end ----

  /** One more step of the pipeline's. */
  lemma On(from: World, done: seq<Action>, w: World, a: Action) returns (actions: seq<Action>, v: World)
    requires Leads(Step, from, done, w) && Enabled(w, a) && Invariant(w)
    ensures actions == done + [a] && v == Next(w, a) && Leads(Step, from, actions, v) && Invariant(v)
  {
    hide Invariant;
    StepKeeps(w, a);
    v := Next(w, a);
    LeadsOn(Step, from, done, w, a, v);
    actions := done + [a];
  }

  /** Nothing but jobs coming to their ends. */
  predicate Ending(a: Action) {
    a.Launch? || a.GiveUp? || a.Land? || a.Wake?
  }

  lemma JobEnds(from: World, done: seq<Action>, w: World, job: nat) returns (actions: seq<Action>, v: World)
    requires Leads(Step, from, done, w) && Invariant(w) && job in w.jobs && forall a | a in done :: Ending(a)
    ensures Leads(Step, from, actions, v) && Invariant(v) && forall a | a in actions :: Ending(a)
    ensures v.jobs == w.jobs - {job} && v.waits == w.waits && v.rows == w.rows
  {
    hide Invariant, Leads, Requested, Launched, Landed, Woken, Taken, Leased, Recorded, Waiting, Queued;
    actions, v := done, w;
    if v.jobs[job].phase.Claimed? {
      actions, v := On(from, actions, v, Launch(job));
      if job !in v.jobs {
        return;
      }
    }
    if v.jobs[job].phase.Flying? {
      actions, v := On(from, actions, v, GiveUp(job));
    }
    if v.jobs[job].phase.Landing? {
      actions, v := On(from, actions, v, Land(job));
    }
    actions, v := On(from, actions, v, Wake(job));
  }

  lemma NoSteps(w: World)
    ensures Leads(Step, w, [], w)
  {
  }

  lemma OneLess(jobs: map<nat, Job>, job: nat)
    requires job in jobs
    ensures |jobs - {job}| < |jobs|
  {
    assert jobs == (jobs - {job})[job := jobs[job]];
  }

  /** From every moment of every run, the jobs under way can all end, without any
      more being claimed; then every client has been woken and no flight is left. */
  lemma EveryWaiterCanWake(rows: Table, before: seq<Action>, w: World) returns (actions: seq<Action>, v: World)
    requires Leads(Step, Fresh(rows), before, w)
    ensures Leads(Step, w, actions, v) && forall a | a in actions :: Ending(a)
    ensures v.jobs == map[] && v.board.inFlight == map[]
    ensures v.waits == w.waits && v.waits <= v.board.closed
  {
    hide *;
    EveryRunKeeps(rows, before, w);
    actions, v := [], w;
    NoSteps(w);
    while v.jobs != map[]
      invariant Leads(Step, w, actions, v) && Invariant(v) && forall a | a in actions :: Ending(a)
      invariant v.waits == w.waits
      decreases |v.jobs|
    {
      hide *;
      var job :| job in v.jobs;
      OneLess(v.jobs, job);
      actions, v := JobEnds(w, actions, v, job);
    }
    NobodyIsLeft(v);
  }

  lemma NobodyIsLeft(w: World)
    requires Invariant(w) && w.jobs == map[]
    ensures w.board.inFlight == map[] && w.waits <= w.board.closed
  {
    forall id
      ensures id !in w.board.inFlight
    {
      assert id in w.board.inFlight ==> Flown(w.jobs, id, w.board.inFlight[id]);
    }
    assert w.board.inFlight == map[];
    forall done | done in w.waits
      ensures done in w.board.closed
    {
      assert Cared(w.jobs, w.board, done);
    }
  }
}
