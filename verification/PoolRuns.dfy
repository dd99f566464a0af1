/** The pool's sections step by step, with its tunnels' users going about their
    business in between: what an eviction or a reaping closes, nobody uses. */
module PoolRuns {
  import opened Common
  import opened Tunnels

  /** What the goroutine that has the pool's mutex is doing. A tunnel is counted,
      measured and shut in steps of its own. */
  datatype Section =
    | Free
    | Looking(left: set<string>, counted: Option<string>, victim: Option<string>, longest: int)
    | Sweeping(left: set<string>, stale: Option<string>)
    | Dropping
    | Handing

  /** The pooled tunnels by server, and all tunnels ever opened, those on their
      way out too. */
  datatype System = System(idle: int, section: Section, pooled: map<string, nat>, tunnels: map<nat, World>)

  datatype Move =
    | Lock(section: Section)
    | Count(name: string)
    | Measure(now: int)
    | Evict
    | Sweep(name: string, now: int)
    | Reap
    | Drop(name: string)
    | Open(name: string, tunnel: nat, now: int)
    | Hand(name: string, use: nat, now: int)
    | Unlock
    | Elsewhere(tunnel: nat, action: Action)

  predicate Begins(s: System, section: Section) {
    match section
    case Looking(left, counted, victim, longest) => left == s.pooled.Keys && counted == None && victim == None && longest == -1
    case Sweeping(left, stale) => left == s.pooled.Keys && stale == None
    case _ => !section.Free?
  }

  predicate Known(s: System, name: string) {
    name in s.pooled && s.pooled[name] in s.tunnels
  }

  function At(s: System, name: string): World
    requires Known(s, name)
  {
    s.tunnels[s.pooled[name]]
  }

  /** A use may only start afresh in the section that hands a tunnel over; all
      else users do, they do whenever they like. */
  predicate May(s: System, m: Move) {
    match m
    case Lock(section) => s.section.Free? && Begins(s, section)
    case Count(name) => s.section.Looking? && s.section.counted.None? && name in s.section.left && Known(s, name)
    case Measure(_) => s.section.Looking? && s.section.counted.Some? && Known(s, s.section.counted.value)
    case Evict => s.section.Looking? && s.section.left == {} && s.section.counted.None? && s.section.victim.Some? && Known(s, s.section.victim.value)
    case Sweep(name, _) => s.section.Sweeping? && s.section.stale.None? && name in s.section.left && Known(s, name)
    case Reap => s.section.Sweeping? && s.section.stale.Some? && Known(s, s.section.stale.value)
    case Drop(name) => s.section.Dropping? && Known(s, name)
    case Open(name, tunnel, _) => s.section.Handing? && name !in s.pooled && tunnel !in s.tunnels
    case Hand(name, use, now) => s.section.Handing? && Known(s, name) && Enabled(At(s, name), Enter(use, now))
    case Unlock => !s.section.Free?
    case Elsewhere(tunnel, action) => tunnel in s.tunnels && !action.Enter? && Enabled(s.tunnels[tunnel], action)
  }

  function IdleFor(w: World, now: int): int {
    if w.tunnel.active > 0 then 0 else now - w.tunnel.lastUsed
  }

  /** The tunnel leaves the pool and is shut. */
  function Removed(s: System, name: string): System
    requires Known(s, name)
  {
    var t := s.pooled[name];
    s.(pooled := s.pooled - {name}, tunnels := s.tunnels[t := Next(s.tunnels[t], Close)])
  }

  function After(s: System, m: Move): System
    requires May(s, m)
  {
    match m
    case Lock(section) => s.(section := section)
    case Count(name) =>
      s.(section := s.section.(left := s.section.left - {name}, counted := if At(s, name).tunnel.active > 0 then None else Some(name)))
    case Measure(now) =>
      var name := s.section.counted.value;
      var idle := IdleFor(At(s, name), now);
      s.(section := if idle > s.section.longest then s.section.(counted := None, victim := Some(name), longest := idle)
                    else s.section.(counted := None))
    case Evict => Removed(s, s.section.victim.value).(section := Handing)
    case Sweep(name, now) =>
      s.(section := Sweeping(s.section.left - {name}, if IdleFor(At(s, name), now) >= s.idle then Some(name) else None))
    case Reap => Removed(s, s.section.stale.value).(section := s.section.(stale := None))
    case Drop(name) => Removed(s, name)
    case Open(name, tunnel, now) =>
      s.(pooled := s.pooled[name := tunnel], tunnels := s.tunnels[tunnel := Fresh(now)])
    case Hand(name, use, now) =>
      s.(tunnels := s.tunnels[s.pooled[name] := Next(At(s, name), Enter(use, now))])
    case Unlock => s.(section := Free)
    case Elsewhere(tunnel, action) => s.(tunnels := s.tunnels[tunnel := Next(s.tunnels[tunnel], action)])
  }

  predicate Moves(s: System, m: Move, t: System) {
    May(s, m) && After(s, m) == t
  }

  function Empty(idle: int): System {
    System(idle, Free, map[], map[])
  }

  predicate Unused(s: System, name: string) {
    Known(s, name) && At(s, name).uses == {}
  }

  /** What has been found unused is still. */
  ghost predicate Holds(s: System) {
    && (forall t | t in s.tunnels :: Invariant(s.tunnels[t]))
    && (forall name | name in s.pooled :: Known(s, name))
    && (s.section.Looking? ==>
          && (s.section.counted.Some? ==> Unused(s, s.section.counted.value))
          && (s.section.victim.Some? ==> Unused(s, s.section.victim.value)))
    && (s.section.Sweeping? && s.section.stale.Some? ==> Unused(s, s.section.stale.value))
  }

  /** Without Enter, nobody comes to a tunnel nobody uses. */
  lemma StaysUnused(w: World, a: Action)
    requires Invariant(w) && Enabled(w, a) && !a.Enter? && w.uses == {}
    ensures Next(w, a).uses == {}
  {
  }

  lemma ElsewhereKeeps(s: System, m: Move)
    requires Holds(s) && m.Elsewhere? && May(s, m)
    ensures Holds(After(s, m))
  {
    StepKeeps(s.tunnels[m.tunnel], m.action);
    if s.tunnels[m.tunnel].uses == {} {
      StaysUnused(s.tunnels[m.tunnel], m.action);
    }
    hide Next, Enabled, Invariant;
  }

  lemma ShutKeeps(s: System, m: Move)
    requires Holds(s) && (m.Evict? || m.Reap? || m.Drop?) && May(s, m)
    ensures Holds(After(s, m))
  {
    var name := if m.Evict? then s.section.victim.value else if m.Reap? then s.section.stale.value else m.name;
    StepKeeps(At(s, name), Close);
    hide Next, Invariant;
  }

  lemma LookKeeps(s: System, m: Move)
    requires Holds(s) && s.idle > 0 && (m.Count? || m.Measure? || m.Sweep?) && May(s, m)
    ensures Holds(After(s, m))
  {
    if !m.Measure? {
      assert Invariant(At(s, m.name));
    }
  }

  lemma OtherKeeps(s: System, m: Move)
    requires Holds(s) && (m.Lock? || m.Open? || m.Hand? || m.Unlock?) && May(s, m)
    ensures Holds(After(s, m))
  {
    if m.Hand? {
      StepKeeps(At(s, m.name), Enter(m.use, m.now));
      hide Next, Invariant;
    }
  }

  lemma {:induction false} EveryRunHolds(idle: int, moves: seq<Move>, s: System)
    requires idle > 0 && Leads(Moves, Empty(idle), moves, s)
    ensures Holds(s) && s.idle == idle
  {
    if moves != [] {
      var before := LastStep(Moves, Empty(idle), moves, s);
      var m := moves[|moves| - 1];
      EveryRunHolds(idle, moves[..|moves| - 1], before);
      hide Holds;
      if m.Elsewhere? {
        ElsewhereKeeps(before, m);
      } else if m.Evict? || m.Reap? || m.Drop? {
        ShutKeeps(before, m);
      } else if m.Count? || m.Measure? || m.Sweep? {
        LookKeeps(before, m);
      } else {
        OtherKeeps(before, m);
      }
    }
  }

  /** In every run of the pool and its users, with steps interleaved as they
      come: when an eviction or a reaping shuts a tunnel, nobody uses it. */
  lemma NobodyIsCutOff(idle: int, moves: seq<Move>, s: System)
    requires idle > 0 && Leads(Moves, Empty(idle), moves, s)
    ensures May(s, Evict) ==> At(s, s.section.victim.value).uses == {}
    ensures May(s, Reap) ==> At(s, s.section.stale.value).uses == {}
  {
    EveryRunHolds(idle, moves, s);
  }

  /** And every tunnel's fields are right throughout, as the pool's methods
      need them to be. */
  lemma TunnelsStayRight(idle: int, moves: seq<Move>, s: System, t: nat)
    requires idle > 0 && Leads(Moves, Empty(idle), moves, s) && t in s.tunnels
    ensures Right(s.tunnels[t].tunnel, s.tunnels[t].deviceCloses)
  {
    EveryRunHolds(idle, moves, s);
    InvariantIsRight(s.tunnels[t]);
  }
}
