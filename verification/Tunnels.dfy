/** The life of one tunnel: who uses it, when it is shut, and when its device
    may be closed. The class is the tunnel; World interleaves its mutex
    sections over any number of goroutines. */
module Tunnels {
  import opened Common

  /** What the tunnel's mutex guards. */
  datatype State = State(active: int, lastUsed: int, closed: bool, deviceClosed: bool)

  // ---- the mutex sections ----

  function Used(s: State, now: int): (State, bool) {
    if s.closed then (s, false) else (s.(active := s.active + 1, lastUsed := now), true)
  }

  function Released(s: State, now: int): (State, bool) {
    (s.(active := s.active - 1, lastUsed := now), s.closed && s.active == 1)
  }

  /** The flag says whether the caller is to close the device. */
  function Shut(s: State): (State, bool) {
    if s.closed then (s, false) else (s.(closed := true), s.active <= 0)
  }

  function Taken(s: State): (State, bool) {
    if s.deviceClosed then (s, false) else (s.(deviceClosed := true), true)
  }

  /** The device is closed once, if at all, and only once the tunnel is shut
      with nobody using it. */
  predicate Right(s: State, deviceCloses: nat) {
    && s.active >= 0
    && (s.deviceClosed ==> s.closed && s.active == 0)
    && deviceCloses <= if s.deviceClosed then 1 else 0
  }

  class Tunnel {
    var active: int
    var lastUsed: int
    var closed: bool
    var deviceClosed: bool
    /** The device outside the mutex: how often it has been closed. */
    var deviceCloses: nat
    /** Which of the pool's keys it uses, -1 for its own. */
    const keyIndex: int

    function Guarded(): State
      reads this
    {
      State(active, lastUsed, closed, deviceClosed)
    }

    /** What holds at every moment, also while goroutines are in the middle of
        things: see World. */
    predicate Valid()
      reads this
    {
      Right(Guarded(), deviceCloses)
    }

    constructor (keyIndex: int, now: int)
      ensures Valid() && this.keyIndex == keyIndex
      ensures Guarded() == State(0, now, false, false)
    {
      this.keyIndex := keyIndex;
      active, lastUsed, closed, deviceClosed, deviceCloses := 0, now, false, false, 0;
    }

    /** A new user, unless the tunnel is shut. */
    method Use(now: int) returns (ok: bool)
      modifies this
      ensures (Guarded(), ok) == Used(old(Guarded()), now)
      ensures ok <==> !old(closed)
      ensures closed == old(closed) && active == old(active) + (if ok then 1 else 0) && lastUsed == if ok then now else old(lastUsed)
      ensures deviceCloses == old(deviceCloses)
      ensures old(Valid()) ==> Valid()
    {
      if closed {
        return false;
      }
      active := active + 1;
      lastUsed := now;
      ok := true;
    }

    method ReleaseSection(now: int) returns (last: bool)
      modifies this
      ensures (Guarded(), last) == Released(old(Guarded()), now)
      ensures deviceCloses == old(deviceCloses)
    {
      active := active - 1;
      lastUsed := now;
      last := closed && active == 0;
    }

    method ShutSection() returns (alone: bool)
      modifies this
      ensures (Guarded(), alone) == Shut(old(Guarded()))
      ensures deviceCloses == old(deviceCloses)
    {
      if closed {
        return false;
      }
      closed := true;
      alone := !(active > 0);
    }

    method TakeSection() returns (mine: bool)
      modifies this
      ensures (Guarded(), mine) == Taken(old(Guarded()))
      ensures deviceCloses == old(deviceCloses)
    {
      if deviceClosed {
        return false;
      }
      deviceClosed := true;
      mine := true;
    }

    /** Whichever goroutine gets here first closes the device. */
    method CloseDevice()
      modifies this
      ensures Guarded() == old(Guarded()).(deviceClosed := true)
      ensures deviceCloses == old(deviceCloses) + if old(deviceClosed) then 0 else 1
    {
      var mine := TakeSection();
      if mine {
        deviceCloses := deviceCloses + 1;
      }
    }

    /** A user leaves; the last one out of a shut tunnel closes the device. */
    method Release(now: int)
      requires Valid() && active > 0
      modifies this
      ensures Valid()
      ensures active == old(active) - 1 && lastUsed == now && closed == old(closed)
      ensures deviceCloses == old(deviceCloses) + if closed && active == 0 then 1 else 0
      ensures deviceClosed <==> closed && active == 0
    {
      var last := ReleaseSection(now);
      if last {
        CloseDevice();
      }
    }

    /** No new users from here on; the device goes at once if there are none. */
    method Close()
      requires Valid()
      modifies this
      ensures Valid()
      ensures closed && active == old(active) && lastUsed == old(lastUsed)
      ensures deviceCloses == old(deviceCloses) + if !old(closed) && active == 0 then 1 else 0
      ensures deviceClosed <==> if old(closed) then old(deviceClosed) else active == 0
    {
      var alone := ShutSection();
      if alone {
        CloseDevice();
      }
    }

    /** Zero while anyone uses the tunnel. */
    method IdleFor(now: int) returns (idle: int)
      ensures idle == if active > 0 then 0 else now - lastUsed
    {
      if active > 0 {
        return 0;
      }
      idle := now - lastUsed;
    }
  }

  /** A connection through a tunnel: a use of it, given back once however
      often the connection is closed. */
  class TrackedConn {
    const tunnel: Tunnel
    var done: bool

    constructor (tunnel: Tunnel)
      requires tunnel.Valid() && tunnel.active > 0
      ensures this.tunnel == tunnel && !done
    {
      this.tunnel, done := tunnel, false;
    }

    method Close(now: int)
      requires tunnel.Valid() && (!done ==> tunnel.active > 0)
      modifies this, tunnel
      ensures done && tunnel.Valid()
      ensures tunnel.active == old(tunnel.active) - if old(done) then 0 else 1
      ensures old(done) ==> tunnel.Guarded() == old(tunnel.Guarded()) && tunnel.deviceCloses == old(tunnel.deviceCloses)
    {
      if !done {
        done := true;
        tunnel.Release(now);
      }
    }
  }

  // ---- every interleaving ----

  /** The tunnel and what goroutines are in the middle of: uses not yet given
      back, goroutines told to close the device that have not entered
      closeDevice's section, and goroutines past it that have not called the
      device's Close. */
  datatype World = World(tunnel: State, uses: set<nat>, closers: nat, closing: nat, deviceCloses: nat)

  /** What any goroutine may do next. Enter is a use through the pool; Nest is
      one by a goroutine already holding a use (a lookup, a dial, a handshake). */
  datatype Action =
    | Enter(use: nat, now: int)
    | Nest(holder: nat, use: nat, now: int)
    | Leave(use: nat, now: int)
    | Close
    | TakeDevice
    | CloseDevice

  predicate Enabled(w: World, a: Action) {
    match a
    case Enter(use, _) => use !in w.uses
    case Nest(holder, use, _) => holder in w.uses && use !in w.uses
    case Leave(_, _) => true
    case Close => true
    case TakeDevice => w.closers > 0
    case CloseDevice => w.closing > 0
  }

  function Started(w: World, use: nat, now: int): World {
    var (s, ok) := Used(w.tunnel, now);
    w.(tunnel := s, uses := if ok then w.uses + {use} else w.uses)
  }

  function Next(w: World, a: Action): World
    requires Enabled(w, a)
  {
    match a
    case Enter(use, now) => Started(w, use, now)
    case Nest(_, use, now) => Started(w, use, now)
    case Leave(use, now) =>
      if use !in w.uses then w
      else
        var (s, last) := Released(w.tunnel, now);
        w.(tunnel := s, uses := w.uses - {use}, closers := w.closers + if last then 1 else 0)
    case Close =>
      var (s, alone) := Shut(w.tunnel);
      w.(tunnel := s, closers := w.closers + if alone then 1 else 0)
    case TakeDevice =>
      var (s, mine) := Taken(w.tunnel);
      w.(tunnel := s, closers := w.closers - 1, closing := w.closing + if mine then 1 else 0)
    case CloseDevice => w.(closing := w.closing - 1, deviceCloses := w.deviceCloses + 1)
  }

  function Fresh(now: int): World {
    World(State(0, now, false, false), {}, 0, 0, 0)
  }

  /** One action, when it may be taken. */
  predicate Step(w: World, a: Action, v: World) {
    Enabled(w, a) && Next(w, a) == v
  }

  ghost predicate Invariant(w: World) {
    && w.tunnel.active == |w.uses|
    && (w.tunnel.deviceClosed || w.closers > 0 ==> w.tunnel.closed && w.uses == {})
    && (w.tunnel.closed && w.uses == {} ==> w.tunnel.deviceClosed || w.closers > 0)
    && w.deviceCloses + w.closing == if w.tunnel.deviceClosed then 1 else 0
  }

  /** Whatever goroutines are in the middle of, the tunnel's own fields are right. */
  lemma InvariantIsRight(w: World)
    requires Invariant(w)
    ensures Right(w.tunnel, w.deviceCloses)
  {
  }

  lemma StepKeeps(w: World, a: Action)
    requires Invariant(w) && Enabled(w, a)
    ensures Invariant(Next(w, a))
    ensures w.tunnel.closed ==> Next(w, a).tunnel.closed && Next(w, a).uses <= w.uses
  {
    if a.Leave? && a.use in w.uses {
      assert |w.uses - {a.use}| == |w.uses| - 1;
      assert w.uses - {a.use} == {} <==> |w.uses| == 1;
    }
  }

  lemma {:induction false} RunKeeps(w: World, actions: seq<Action>, later: World)
    requires Invariant(w) && Leads(Step, w, actions, later)
    ensures Invariant(later)
  {
    if actions != [] {
      var before := LastStep(Step, w, actions, later);
      RunKeeps(w, actions[..|actions| - 1], before);
      StepKeeps(before, actions[|actions| - 1]);
    }
  }

  /** The clock the action reads, if it does, says no more than that. */
  predicate ByThen(a: Action, now: int) {
    match a
    case Enter(_, at) => at <= now
    case Nest(_, _, at) => at <= now
    case Leave(_, at) => at <= now
    case _ => true
  }

  lemma {:induction false} LastUsedByThen(w: World, actions: seq<Action>, later: World, now: int)
    requires Leads(Step, w, actions, later) && w.tunnel.lastUsed <= now && forall a | a in actions :: ByThen(a, now)
    ensures later.tunnel.lastUsed <= now
  {
    if actions != [] {
      var n := |actions| - 1;
      var before := LastStep(Step, w, actions, later);
      LastUsedByThen(w, actions[..n], before, now);
      assert ByThen(actions[n], now);
    }
  }

  /** Over every interleaving from an open tunnel: active is the number of
      uses outstanding; the device is closed at most once, and neither closed
      nor about to be while anyone uses the tunnel or before it is shut; and
      once it is shut and unused the device is closed or a goroutine is on its
      way to close it. */
  lemma {:induction false} EveryRunIsSafe(now: int, actions: seq<Action>, w: World)
    requires Leads(Step, Fresh(now), actions, w)
    ensures w.tunnel.active == |w.uses|
    ensures w.deviceCloses <= 1
    ensures w.deviceCloses + w.closing > 0 ==> w.tunnel.closed && w.uses == {}
    ensures w.tunnel.closed && w.uses == {} ==> w.deviceCloses == 1 || w.closing > 0 || w.closers > 0
    ensures Invariant(w)
  {
    if actions != [] {
      var n := |actions| - 1;
      var before := LastStep(Step, Fresh(now), actions, w);
      EveryRunIsSafe(now, actions[..n], before);
      StepKeeps(before, actions[n]);
    }
  }

  /** With nothing left to do, the device has been closed exactly once if the
      tunnel is shut and unused, and never otherwise. */
  lemma QuietMeansSettled(now: int, actions: seq<Action>, w: World)
    requires Leads(Step, Fresh(now), actions, w) && w.closers == 0 && w.closing == 0
    ensures w.deviceCloses == if w.tunnel.closed && w.uses == {} then 1 else 0
  {
    EveryRunIsSafe(now, actions, w);
  }

  /** No use starts once the tunnel is shut. */
  lemma {:induction false} ShutTakesNobody(w: World, actions: seq<Action>, later: World)
    requires Invariant(w) && w.tunnel.closed && Leads(Step, w, actions, later)
    ensures later.tunnel.closed && later.uses <= w.uses && Invariant(later)
  {
    if actions != [] {
      var n := |actions| - 1;
      var before := LastStep(Step, w, actions, later);
      ShutTakesNobody(w, actions[..n], before);
      StepKeeps(before, actions[n]);
    }
  }

  /** A tunnel nobody uses stays unused until someone comes in through the
      pool: what the pool finds idle while it holds its own mutex is still
      idle when it closes it. */
  lemma {:induction false} IdleStaysIdle(w: World, actions: seq<Action>, later: World)
    requires Invariant(w) && w.uses == {} && Leads(Step, w, actions, later)
    requires forall a | a in actions :: !a.Enter?
    ensures later.uses == {} && later.tunnel.active == 0 && later.tunnel.lastUsed == w.tunnel.lastUsed
    ensures Invariant(later)
  {
    if actions != [] {
      var n := |actions| - 1;
      var before := LastStep(Step, w, actions, later);
      IdleStaysIdle(w, actions[..n], before);
      StepKeeps(before, actions[n]);
      assert !actions[n].Enter?;
    }
  }
}
