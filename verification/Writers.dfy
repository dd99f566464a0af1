/** What else the program writes to an episode's row, and which of it can give
    an episode a second claimer: the writes that save a whole row as it was
    read, when the episode was claimed after that. */
module Writers {
  import opened Common
  import opened Retries
  import opened Claims
  import opened Flights

  /** How a row that was read is changed before it is saved whole. */
  datatype Saving =
    | Forgetting                    // its cache file is gone
    | Streaming(processed: bool)    // it was cached while being streamed
    | Noting(due: Option<int>)      // settings, or a first slow retry, are recorded
    | Restarting(asIs: bool)        // changed settings give a failed episode a fresh start

  datatype Writing =
    | Drop(dropped: bool)           // a poll
    | Hide(hidden: bool)            // a rule
    | ShowAsBacklog(due: Option<int>)
    | QueueFailed(at: int)
    | QueueUncached(at: int)
    | Save(read: Row, saving: Saving)

  function Saved(read: Row, saving: Saving): Row {
    match saving
    case Forgetting => read.(cached := false)
    case Streaming(processed) =>
      read.(cached := true, state := if read.state == Failed && !processed then Ready else read.state)
    case Noting(due) => read.(due := due)
    case Restarting(asIs) => Row(if asIs then Ready else Discovered, 0, 0, 0, None, false, false)
  }

  /** The writes to single columns ask for the state they find; a saved row
      was read in one, but may be found in another. */
  predicate Applies(e: Stored, writing: Writing) {
    match writing
    case Drop(_) => true
    case Hide(_) => true
    case ShowAsBacklog(_) => e.hidden && e.row.state in {Discovered, Ready}
    case QueueFailed(_) => e.row.state == Failed
    case QueueUncached(_) => e.row.state == Ready && !e.row.cached
    case Save(read, saving) =>
      match saving {
        case Forgetting => read.cached
        case Streaming(_) => !read.cached
        case Noting(_) => read.state in {Ready, Failed}
        case Restarting(_) => read.state == Failed
      }
  }

  function Written(e: Stored, writing: Writing): Stored {
    match writing
    case Drop(dropped) => e.(dropped := dropped)
    case Hide(hidden) => e.(hidden := hidden)
    case ShowAsBacklog(due) => e.(hidden := false, row := e.row.(state := Ready, due := if e.row.cached then None else due))
    case QueueFailed(at) => e.(row := e.row.(due := Some(at), lateRetries := 0))
    case QueueUncached(at) => e.(row := e.row.(due := Some(at)))
    case Save(read, saving) => e.(row := Saved(read, saving))
  }

  function Writes(w: World, id: nat, writing: Writing): Action
    requires id in w.rows
  {
    Rewrite(id, Written(w.rows[id], writing))
  }

  /** It keeps one claimer each, whatever tame steps follow. */
  ghost predicate KeepsClaims(w: World, id: nat, writing: Writing)
    requires id in w.rows
  {
    StaysOneEach(Next(w, Writes(w, id, writing)))
  }

  /** The row saved is in the state it was read in still. */
  predicate InTime(e: Stored, writing: Writing) {
    writing.Save? ==> writing.read.state == e.row.state
  }

  lemma OthersHaveNoClaimer(w: World, id: nat)
    requires TameInvariant(w) && id in w.rows && w.rows[id].row.state != Acquiring
    ensures Unclaimed(w.jobs, id)
  {
  }

  lemma WritingIsTame(w: World, id: nat, writing: Writing)
    requires TameInvariant(w) && id in w.rows && Applies(w.rows[id], writing) && InTime(w.rows[id], writing)
    requires !(writing.Save? && writing.saving.Restarting?)
    ensures Tame(w, Writes(w, id, writing))
  {
    if w.rows[id].row.state != Acquiring {
      OthersHaveNoClaimer(w, id);
    }
    hide TameInvariant;
  }

  /** Whatever else the program writes keeps one claimer each, so long as a row
      it saves whole is in the state it was read in still, and it is no restart. */
  lemma WritingsKeepClaims(rows: Table, actions: seq<Action>, w: World, id: nat, writing: Writing)
    requires Leads(TameStep, Fresh(rows), actions, w)
    requires id in w.rows && Applies(w.rows[id], writing) && InTime(w.rows[id], writing)
    requires !(writing.Save? && writing.saving.Restarting?)
    ensures KeepsClaims(w, id, writing)
  {
    hide Leads, TameStep, TameInvariant, StaysOneEach, Tame, Written, Applies, InTime;
    TameRunIsRight(rows, actions, w);
    WritingIsTame(w, id, writing);
    TameExactly(rows, actions, w, id, Written(w.rows[id], writing));
  }

  /** A restart does exactly when the episode is published as it is from then
      on, or nobody holds it. */
  lemma RestartKeepsClaims(rows: Table, actions: seq<Action>, w: World, id: nat, read: Row, asIs: bool)
    requires Leads(TameStep, Fresh(rows), actions, w)
    requires id in w.rows && w.rows[id].row.state == read.state == Failed
    ensures KeepsClaims(w, id, Save(read, Restarting(asIs))) <==> asIs || Unheld(w, id)
  {
    hide Leads, TameStep, TameInvariant, StaysOneEach, Unheld;
    TameRunIsRight(rows, actions, w);
    OthersHaveNoClaimer(w, id);
    TameExactly(rows, actions, w, id, Written(w.rows[id], Save(read, Restarting(asIs))));
  }

  /** A row saved late does exactly when it is in the state being written
      anyway; or nobody holds the episode, if it is made new by it; or no
      claimer does, if it is made ready or failed. */
  lemma LateSaveKeepsClaims(rows: Table, actions: seq<Action>, w: World, id: nat, read: Row, saving: Saving)
    requires Leads(TameStep, Fresh(rows), actions, w) && id in w.rows
    ensures var state := Saved(read, saving).state;
            KeepsClaims(w, id, Save(read, saving)) <==>
              || w.rows[id].row.state == state
              || (if state == Discovered then Unheld(w, id) else state == Acquiring || Unclaimed(w.jobs, id))
  {
    hide Leads, TameStep, StaysOneEach, Unheld, Unclaimed, Saved;
    TameExactly(rows, actions, w, id, Written(w.rows[id], Save(read, saving)));
  }

  // ---- saved too late ----

  /** Where four actions lead, taken in turn. */
  ghost predicate Lead(start: World, a: Action, b: Action, c: Action, d: Action, w: World) {
    exists u, v, x :: Step(start, a, u) && Step(u, b, v) && Step(v, c, x) && Step(x, d, w)
  }

  lemma LeadIsRun(start: World, a: Action, b: Action, c: Action, d: Action, w: World)
    requires Lead(start, a, b, c, d, w)
    ensures Leads(Step, start, [a, b, c, d], w)
  {
    var u, v, x :| Step(start, a, u) && Step(u, b, v) && Step(v, c, x) && Step(x, d, w);
    hide Leads;
    FourSteps(Step, start, a, u, b, v, c, x, d, w);
  }

  /** A client streams a new episode, published before its turn, and it is
      cached on the way; a worker claims it before the stream ends; the row,
      saved as it was read, is new again, and another worker claims it. */
  lemma StreamedOverClaim(stored: Stored) returns (rows: Table, actions: seq<Action>, w: World)
    requires stored.row.state == Discovered && !stored.row.cached
    ensures Leads(Step, Fresh(rows), actions, w) && rows == map[0 := stored]
    ensures actions == [ClaimNext(0, 0), Launch(0), Rewrite(0, Written(stored, Save(stored.row, Streaming(false)))), ClaimNext(1, 0)]
    ensures 0 in w.jobs && 1 in w.jobs && Claimer(w.jobs[0], 0) && Claimer(w.jobs[1], 0) && !OneEach(w)
  {
    hide Leads;
    rows := map[0 := stored];
    var a, b, c, d := ClaimNext(0, 0), Launch(0), Rewrite(0, Written(stored, Save(stored.row, Streaming(false)))), ClaimNext(1, 0);
    var claimed := Next(Fresh(rows), a);
    var launched := Next(claimed, b);
    var streamed := Next(launched, c);
    w := Next(streamed, d);
    assert Lead(Fresh(rows), a, b, c, d, w) by {
      assert Step(Fresh(rows), a, claimed) && Step(claimed, b, launched) && Step(launched, c, streamed) && Step(streamed, d, w);
    }
    actions := [a, b, c, d];
    LeadIsRun(Fresh(rows), a, b, c, d, w);
  }

  /** A client streams a failed episode; changed settings restart it and a
      worker claims it; the row is saved as ready, while the claimer has it. */
  lemma StreamedOverRestart(stored: Stored) returns (rows: Table, actions: seq<Action>, w: World)
    requires stored.row.state == Failed && !stored.row.cached
    ensures Leads(Step, Fresh(rows), actions, w) && rows == map[0 := stored]
    ensures var restarted := Written(stored, Save(stored.row, Restarting(false)));
            actions == [Rewrite(0, restarted), ClaimNext(0, 0), Launch(0), Rewrite(0, Written(restarted, Save(stored.row, Streaming(false))))]
    ensures 0 in w.jobs && Claimer(w.jobs[0], 0) && 0 in w.rows && w.rows[0].row.state == Ready && !OneEach(w)
  {
    hide Leads;
    rows := map[0 := stored];
    var restarted := Written(stored, Save(stored.row, Restarting(false)));
    var a, b, c, d := Rewrite(0, restarted), ClaimNext(0, 0), Launch(0), Rewrite(0, Written(restarted, Save(stored.row, Streaming(false))));
    var again := Next(Fresh(rows), a);
    var claimed := Next(again, b);
    var launched := Next(claimed, c);
    w := Next(launched, d);
    assert Lead(Fresh(rows), a, b, c, d, w) by {
      assert Step(Fresh(rows), a, again) && Step(again, b, claimed) && Step(claimed, c, launched) && Step(launched, d, w);
    }
    actions := [a, b, c, d];
    LeadIsRun(Fresh(rows), a, b, c, d, w);
  }

  // ---- stranded ----

  /** Acquiring, with nobody who has it, and no client that may yet ask for it
      as it was when ready. */
  ghost predicate Stranded(w: World, id: nat) {
    && id in w.rows && w.rows[id].row.state == Acquiring
    && (forall j | j in w.jobs && w.jobs[j].id == id :: !Holding(w.jobs[j]))
    && forall c | c in w.seen && w.seen[c].0 == id :: w.seen[c].1.state != Ready
  }

  predicate PipelineStep(w: World, a: Action, v: World) {
    Step(w, a, v) && !a.Rewrite?
  }

  /** Nothing the pipeline does prepares it, until the program starts afresh. */
  lemma {:induction false} StrandedStays(w: World, id: nat, actions: seq<Action>, v: World)
    requires Stranded(w, id) && Leads(PipelineStep, w, actions, v)
    ensures Stranded(v, id)
  {
    if actions != [] {
      var before := LastStep(PipelineStep, w, actions, v);
      StrandedStays(w, id, actions[..|actions| - 1], before);
      StrandedStep(before, id, actions[|actions| - 1], v);
    }
  }

  lemma StrandedStep(w: World, id: nat, a: Action, v: World)
    requires Stranded(w, id) && PipelineStep(w, a, v)
    ensures Stranded(v, id)
  {
    hide Recorded;
  }

  /** A row read as acquiring, of an episode cached while being streamed, is
      saved after a worker has prepared it: the episode is stranded. */
  lemma StreamedStrands(stored: Stored, policy: Policy, now: int) returns (rows: Table, actions: seq<Action>, w: World)
    requires stored.row.state == Discovered && !stored.row.cached
    ensures Leads(Step, Fresh(rows), actions, w) && rows == map[0 := stored]
    ensures var read := Taken(rows, 0)[0].row;
            var prepared := stored.(row := Recorded(read, Succeeded, policy, now));
            actions == [ClaimNext(0, 0), Launch(0), Record(0, Succeeded, policy, now), Rewrite(0, Written(prepared, Save(read, Streaming(false))))]
    ensures Stranded(w, 0)
  {
    hide Leads;
    rows := map[0 := stored];
    var read := Taken(rows, 0)[0].row;
    var prepared := stored.(row := Recorded(read, Succeeded, policy, now));
    var a, b, c, d := ClaimNext(0, 0), Launch(0), Record(0, Succeeded, policy, now), Rewrite(0, Written(prepared, Save(read, Streaming(false))));
    var claimed := Next(Fresh(rows), a);
    var launched := Next(claimed, b);
    var recorded := Next(launched, c);
    w := Next(recorded, d);
    assert Lead(Fresh(rows), a, b, c, d, w) by {
      assert Step(Fresh(rows), a, claimed) && Step(claimed, b, launched) && Step(launched, c, recorded) && Step(recorded, d, w);
    }
    actions := [a, b, c, d];
    LeadIsRun(Fresh(rows), a, b, c, d, w);
  }
}
