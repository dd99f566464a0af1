/** The tunnels of one provider, no more than a limit, each new one on the key
    with the fewest. Every method runs under the pool's mutex. */
module Pools {
  import opened Common
  import opened Tunnels

  // ---- counting tunnels per key ----

  /** The servers whose tunnels use key k. */
  ghost function OnKey(on: map<string, int>, k: int): set<string> {
    set n | n in on && on[n] == k
  }

  ghost predicate Counted(on: map<string, int>, keyUse: seq<int>) {
    forall k | 0 <= k < |keyUse| :: keyUse[k] == |OnKey(on, k)|
  }

  lemma OnKeyAdded(on: map<string, int>, name: string, key: int, k: int)
    requires name !in on
    ensures |OnKey(on[name := key], k)| == |OnKey(on, k)| + if k == key then 1 else 0
  {
    assert OnKey(on[name := key], k) == OnKey(on, k) + if k == key then {name} else {};
  }

  lemma OnKeyRemoved(on: map<string, int>, name: string, k: int)
    requires name in on
    ensures |OnKey(on - {name}, k)| == |OnKey(on, k)| - if k == on[name] then 1 else 0
  {
    assert OnKey(on - {name}, k) == OnKey(on, k) - if k == on[name] then {name} else {};
  }

  ghost function Below(on: map<string, int>, n: nat): set<string> {
    set s | s in on && 0 <= on[s] < n
  }

  lemma {:induction false} EachKeyUsed(on: map<string, int>, keyUse: seq<int>, n: nat)
    requires Counted(on, keyUse) && n <= |keyUse| && forall k | 0 <= k < n :: keyUse[k] >= 1
    ensures |Below(on, n)| >= n
  {
    if n > 0 {
      EachKeyUsed(on, keyUse, n - 1);
      var fewer, here := Below(on, n - 1), OnKey(on, n - 1);
      assert keyUse[n - 1] == |here|;
      assert Below(on, n) == fewer + here;
      assert fewer !! here;
      hide *;
      assert |fewer + here| == |fewer| + |here|;
    }
  }

  /** With fewer tunnels than keys, some key is free. */
  lemma FreeKey(on: map<string, int>, keyUse: seq<int>)
    requires Counted(on, keyUse) && |on| < |keyUse|
    ensures exists k | 0 <= k < |keyUse| :: keyUse[k] == 0
  {
    if forall k | 0 <= k < |keyUse| :: keyUse[k] != 0 {
      assert forall k | 0 <= k < |keyUse| :: keyUse[k] >= 1;
      EachKeyUsed(on, keyUse, |keyUse|);
      SubsetSize(Below(on, |keyUse|), on.Keys);
    }
  }

  lemma {:induction false} SubsetSize(a: set<string>, b: set<string>)
    requires a <= b
    ensures |a| <= |b|
  {
    if a != {} {
      var x :| x in a;
      SubsetSize(a - {x}, b - {x});
    }
  }

  /** A key counted once carries one tunnel. */
  lemma CountedOnce(on: map<string, int>, keyUse: seq<int>, a: string, b: string)
    requires Counted(on, keyUse) && a in on && b in on && on[a] == on[b] && 0 <= on[a] < |keyUse|
    requires keyUse[on[a]] <= 1
    ensures a == b
  {
    if a != b {
      SubsetSize({a, b}, OnKey(on, on[a]));
    }
  }

  /** The pool's books: on says which key each server's tunnel uses. */
  ghost predicate Books(max: int, keys: nat, on: map<string, int>, keyUse: seq<int>) {
    && (max > 0 ==> |on| <= max)
    && |keyUse| == keys
    && Counted(on, keyUse)
    && (0 < max <= keys ==> forall k | 0 <= k < keys :: keyUse[k] <= 1)
    && (forall n | n in on :: n != "" && IsKey(keys, on[n]))
  }

  predicate IsKey(keys: nat, key: int) {
    if keys > 0 then 0 <= key < keys else key == -1
  }

  /** The key's count, changed. */
  function Adjusted(keyUse: seq<int>, key: int, change: int): seq<int> {
    if 0 <= key < |keyUse| then keyUse[key := keyUse[key] + change] else keyUse
  }

  lemma BooksWithout(max: int, keys: nat, on: map<string, int>, keyUse: seq<int>, name: string)
    requires Books(max, keys, on, keyUse) && name in on
    ensures Books(max, keys, on - {name}, Adjusted(keyUse, on[name], -1))
  {
    hide OnKey;
    assert |on - {name}| == |on| - 1 by {
      assert (on - {name}).Keys == on.Keys - {name};
    }
    forall k | 0 <= k < keys
      ensures Adjusted(keyUse, on[name], -1)[k] == |OnKey(on - {name}, k)|
    {
      OnKeyRemoved(on, name, k);
    }
  }

  /** Opening on a least used key keeps the books: while tunnels are fewer
      than keys, that key is free. */
  lemma BooksWith(max: int, keys: nat, on: map<string, int>, keyUse: seq<int>, name: string, key: int)
    requires Books(max, keys, on, keyUse) && name !in on && name != ""
    requires max > 0 ==> |on| < max
    requires IsKey(keys, key) && forall k | 0 <= k < keys :: keyUse[key] <= keyUse[k]
    ensures Books(max, keys, on[name := key], Adjusted(keyUse, key, 1))
  {
    hide OnKey;
    var more := on[name := key];
    assert |more| == |on| + 1 by {
      assert more.Keys == on.Keys + {name};
    }
    forall k | 0 <= k < keys
      ensures Adjusted(keyUse, key, 1)[k] == |OnKey(more, k)|
    {
      OnKeyAdded(on, name, key, k);
    }
    if 0 < max <= keys {
      FreeKey(on, keyUse);
      assert keyUse[key] == 0 by {
        assert keyUse[key] == |OnKey(on, key)|;
      }
    }
  }

  // ---- choosing a key ----

  /** Where and when a key was last used; no server means never. */
  datatype Place = Place(server: string, at: int)

  const KEY_MOVE_SETTLE: int := 180_000_000_000
  const MAX_DURATION: int := 0x7fff_ffff_ffff_ffff

  function Noted(keyLast: seq<Place>, key: int, place: Place): (n: seq<Place>)
    ensures |n| == |keyLast|
  {
    if 0 <= key < |keyLast| then keyLast[key := place] else keyLast
  }

  datatype Rank = Rank(uses: int, kind: int, since: int)

  function RankOf(uses: int, last: Place, server: string, now: int): Rank {
    Rank(uses,
         if last.server == server then 0
         else if last.server == "" || now - last.at >= KEY_MOVE_SETTLE then 1
         else 2,
         if last.server != "" then now - last.at else MAX_DURATION)
  }

  /** Fewer uses first; then the same server, then settled, then neither; then
      the longest ago. */
  predicate Better(a: Rank, b: Rank) {
    || a.uses < b.uses
    || (a.uses == b.uses && a.kind < b.kind)
    || (a.uses == b.uses && a.kind == b.kind && a.since > b.since)
  }

  /** Not used on another server for three minutes, or never used. */
  predicate Quiet(place: Place, now: int) {
    place.server == "" || now - place.at >= 180_000_000_000
  }

  /** Not left its server later; a key never used left longest ago. */
  predicate LeftNoLater(a: Place, b: Place, now: int) {
    a.server == "" || (b.server != "" && a.at <= b.at) || now - a.at >= MAX_DURATION
  }

  /** No key has fewer uses than this one. Of those with as many: if one was
      last used on this server, so was this one; otherwise, if one is quiet, so
      is this one; and none that is alike in that left its server earlier. */
  ghost predicate WellPicked(keyUse: seq<int>, keyLast: seq<Place>, best: int, server: string, now: int)
    requires |keyUse| == |keyLast|
  {
    && 0 <= best < |keyUse|
    && forall i | 0 <= i < |keyUse| ::
         && keyUse[best] <= keyUse[i]
         && (keyUse[i] == keyUse[best] ==>
               var last, other := keyLast[best], keyLast[i];
               && (other.server == server ==> last.server == server)
               && (last.server != server && Quiet(other, now) ==> Quiet(last, now))
               && ((last.server == server <==> other.server == server)
                   && (last.server == server || (Quiet(last, now) <==> Quiet(other, now)))
                   ==> LeftNoLater(last, other, now)))
  }

  lemma BestIsWellPicked(keyUse: seq<int>, keyLast: seq<Place>, best: nat, server: string, now: int)
    requires best < |keyUse| == |keyLast|
    requires forall i | 0 <= i < |keyUse| :: !Better(RankOf(keyUse[i], keyLast[i], server, now), RankOf(keyUse[best], keyLast[best], server, now))
    ensures WellPicked(keyUse, keyLast, best, server, now)
  {
  }

  datatype Got = Got(tunnel: Tunnel) | NoRoom | OpenFailed

  /** One reading of the clock, which goes on meanwhile. */
  method Tick(from: int, until: int) returns (t: int)
    requires from <= until
    ensures from <= t <= until
  {
    t :| from <= t <= until;
  }

  /** Handed over in use, between two times. */
  predicate HandedOver(s: State, from: int, until: int) {
    s == State(1, s.lastUsed, false, false) && from <= s.lastUsed <= until
  }

  class Pool {
    const max: int
    const keys: nat
    const idle: int
    var keyUse: seq<int>
    var keyLast: seq<Place>
    var tunnels: map<string, Tunnel>

    function Keyed(): map<string, int>
      reads this`tunnels
    {
      map n | n in tunnels :: tunnels[n].keyIndex
    }

    ghost predicate Lives()
      reads this`tunnels, tunnels.Values
    {
      && (forall n | n in tunnels :: tunnels[n].Valid())
      && (forall a, b | a in tunnels && b in tunnels && a != b :: tunnels[a] != tunnels[b])
    }

    /** What holds between calls: the books are right, and so is every tunnel. */
    ghost predicate Valid()
      reads this, tunnels.Values
    {
      Books(max, keys, Keyed(), keyUse) && |keyLast| == keys && Lives()
    }

    /** The clock has not gone back since any tunnel was last used. */
    ghost predicate NotBefore(now: int)
      reads this`tunnels, tunnels.Values
    {
      forall n | n in tunnels :: tunnels[n].lastUsed <= now
    }

    constructor (max: int, keys: nat, idle: int)
      ensures Valid() && tunnels == map[]
      ensures this.max == max && this.keys == keys && this.idle == idle
    {
      this.max, this.keys, this.idle := max, keys, idle;
      keyUse, keyLast, tunnels := seq(keys, _ => 0), seq(keys, _ => Place("", 0)), map[];
    }

    /** With a key for every tunnel allowed, no two tunnels share one. */
    lemma OneTunnelPerKey(a: string, b: string)
      requires Valid() && 0 < max <= keys
      requires a in tunnels && b in tunnels && a != b
      ensures tunnels[a].keyIndex != tunnels[b].keyIndex
    {
      if tunnels[a].keyIndex == tunnels[b].keyIndex {
        assert a in Keyed() && b in Keyed();
        CountedOnce(Keyed(), keyUse, a, b);
      }
    }

    function RankAt(i: nat, server: string, now: int): Rank
      requires i < |keyUse| && i < |keyLast|
      reads this
    {
      RankOf(keyUse[i], keyLast[i], server, now)
    }

    /** The best ranked key, the first of them if several are. */
    method PickKey(server: string, now: int) returns (best: nat)
      requires |keyUse| == |keyLast| == keys && keys > 0
      ensures best < keys
      ensures forall i | 0 <= i < keys :: !Better(RankAt(i, server, now), RankAt(best, server, now))
      ensures forall i | 0 <= i < best :: Better(RankAt(best, server, now), RankAt(i, server, now))
      ensures WellPicked(keyUse, keyLast, best, server, now)
    {
      best := 0;
      for i := 1 to keys
        invariant best < i
        invariant forall k | 0 <= k < i :: !Better(RankAt(k, server, now), RankAt(best, server, now))
        invariant forall k | 0 <= k < best :: Better(RankAt(best, server, now), RankAt(k, server, now))
      {
        var rank, bestRank := RankAt(i, server, now), RankAt(best, server, now);
        if rank.uses != bestRank.uses {
          if rank.uses < bestRank.uses {
            best := i;
          }
          continue;
        }
        if rank.kind != bestRank.kind {
          if rank.kind < bestRank.kind {
            best := i;
          }
          continue;
        }
        if rank.since > bestRank.since {
          best := i;
        }
      }
      forall i | 0 <= i < keys
        ensures !Better(RankOf(keyUse[i], keyLast[i], server, now), RankOf(keyUse[best], keyLast[best], server, now))
      {
        assert !Better(RankAt(i, server, now), RankAt(best, server, now));
      }
      BestIsWellPicked(keyUse, keyLast, best, server, now);
    }

    ghost predicate AllInUse()
      reads this`tunnels, tunnels.Values
    {
      forall n | n in tunnels :: tunnels[n].active > 0
    }

    predicate Full()
      reads this`tunnels
    {
      max > 0 && |tunnels| >= max
    }

    /** Nobody uses the tunnel, and no tunnel nobody uses has been so for longer,
        but for as long as looking took. */
    ghost predicate LongestUnused(victim: string, looking: int)
      reads this`tunnels, tunnels.Values
    {
      && victim in tunnels && tunnels[victim].active == 0
      && forall n | n in tunnels && tunnels[n].active == 0 :: tunnels[victim].lastUsed <= tunnels[n].lastUsed + looking
    }

    /** The tunnel idle longest, whatever order the map is walked in; the clock
        is read for each one. */
    method PickVictim(now: int, until: int) returns (victim: Option<string>, at: int)
      requires Valid() && NotBefore(now) && now <= until
      ensures now <= at <= until
      ensures victim.None? <==> AllInUse()
      ensures victim.Some? ==> LongestUnused(victim.value, at - now)
    {
      victim, at := None, now;
      var longest := -1;
      var names := tunnels.Keys;
      while names != {}
        invariant names <= tunnels.Keys && now <= at <= until
        invariant victim.None? ==> longest == -1
        invariant victim.Some? ==> victim.value in tunnels && tunnels[victim.value].active == 0 && longest <= at - tunnels[victim.value].lastUsed
        invariant forall n | n in tunnels && n !in names && tunnels[n].active == 0 :: longest >= now - tunnels[n].lastUsed
        decreases |names|
      {
        var name :| name in names;
        names := names - {name};
        assert tunnels[name].Valid();
        if tunnels[name].active > 0 {
          continue;
        }
        at := Tick(at, until);
        var idle := tunnels[name].IdleFor(at);
        if idle > longest {
          victim, longest := Some(name), idle;
        }
      }
      assert victim.None? ==> forall n | n in tunnels :: tunnels[n].Valid() && tunnels[n].active > 0;
    }

    ghost predicate BestKey(best: int, server: string, now: int)
      requires |keyUse| == |keyLast| == keys
      reads this
    {
      0 <= best < keys && forall i | 0 <= i < keys :: !Better(RankAt(i, server, now), RankAt(best, server, now))
    }

    lemma LeastUsed(best: nat, server: string, now: int)
      requires |keyUse| == |keyLast| == keys && BestKey(best, server, now)
      ensures forall i | 0 <= i < keys :: keyUse[best] <= keyUse[i]
    {
      forall i | 0 <= i < keys
        ensures keyUse[best] <= keyUse[i]
      {
        assert !Better(RankAt(i, server, now), RankAt(best, server, now));
      }
    }

    lemma BooksOf()
      requires Valid()
      ensures Books(max, keys, Keyed(), keyUse) && |keyUse| == |keyLast| == keys && Lives() && |Keyed()| == |tunnels|
      ensures Keyed().Keys == tunnels.Keys && (max > 0 ==> |tunnels| <= max)
    {
      assert Keyed().Keys == tunnels.Keys;
    }

    /** A tunnel just newcomer joins the map. */
    method Join(name: string, newcomer: Tunnel)
      requires Lives() && name !in tunnels && newcomer.Valid() && newcomer !in tunnels.Values
      modifies this`tunnels
      ensures Lives() && tunnels == old(tunnels)[name := newcomer]
      ensures Keyed() == old(Keyed())[name := newcomer.keyIndex]
    {
      tunnels := tunnels[name := newcomer];
    }

    /** The tunnel leaves the map and is shut. */
    method Drop(name: string)
      requires Lives() && name in tunnels
      modifies this`tunnels, tunnels[name]
      ensures Lives() && tunnels == old(tunnels) - {name}
      ensures Keyed() == old(Keyed()) - {name}
      ensures ShutDown(old(tunnels)[name])
    {
      var candidate := tunnels[name];
      tunnels := tunnels - {name};
      candidate.Close();
    }

    /** The key is used once less, or once more, and last at place. */
    method Note(key: int, change: int, place: Place)
      requires IsKey(keys, key) && |keyUse| == |keyLast| == keys
      modifies this`keyUse, this`keyLast
      ensures keyUse == Adjusted(old(keyUse), key, change)
      ensures keyLast == Noted(old(keyLast), key, place)
    {
      if key >= 0 {
        keyUse := keyUse[key := keyUse[key] + change];
        keyLast := keyLast[key := place];
      }
    }

    method Evict(name: string, now: int)
      requires Valid() && name in tunnels
      modifies this, tunnels[name]
      ensures Valid()
      ensures tunnels == old(tunnels) - {name}
      ensures ShutDown(old(tunnels)[name])
      ensures keyUse == Adjusted(old(keyUse), old(tunnels)[name].keyIndex, -1)
      ensures keyLast == Noted(old(keyLast), old(tunnels)[name].keyIndex, Place(name, now))
    {
      hide *;
      IsKeyed(name);
      var key := tunnels[name].keyIndex;
      BooksWithout(max, keys, Keyed(), keyUse, name);
      Drop(name);
      Note(key, -1, Place(name, now));
      IsValid();
    }

    /** The tunnel leaves the pool and is shut, and its key is free again.
        Other tunnels are not touched. */
    method Remove(name: string, now: int)
      requires Valid()
      modifies this, if name in tunnels then {tunnels[name]} else {}
      ensures Valid()
      ensures tunnels == old(tunnels) - {name}
      ensures name !in old(tunnels) ==> keyUse == old(keyUse) && keyLast == old(keyLast)
      ensures name in old(tunnels) ==>
                && ShutDown(old(tunnels)[name])
                && keyUse == Adjusted(old(keyUse), old(tunnels)[name].keyIndex, -1)
                && keyLast == Noted(old(keyLast), old(tunnels)[name].keyIndex, Place(name, now))
    {
      if name !in tunnels {
        assert tunnels - {name} == tunnels;
        return;
      }
      hide *;
      Evict(name, now);
    }

    lemma IsValid()
      requires Books(max, keys, Keyed(), keyUse) && |keyLast| == keys && Lives()
      ensures Valid()
    {
    }

    /** Shut, with its users where they were. */
    twostate predicate ShutDown(t: Tunnel)
      reads t
    {
      t.Valid() && t.closed && t.active == old(t.active) && t.lastUsed == old(t.lastUsed)
    }

    /** Every pooled tunnel's state. */
    ghost function Snapshot(): map<Tunnel, State>
      reads this`tunnels, tunnels.Values
    {
      map t | t in tunnels.Values :: t.Guarded()
    }

    /** The tunnels still pooled are as they were. */
    ghost predicate AsIn(before: map<Tunnel, State>)
      reads this`tunnels, tunnels.Values
    {
      forall n | n in tunnels :: tunnels[n] in before && tunnels[n].Guarded() == before[tunnels[n]]
    }

    /** The tunnels that have left are shut, with their users where they were. */
    ghost predicate Left(all: map<string, Tunnel>, before: map<Tunnel, State>)
      reads this`tunnels, all.Values
    {
      forall n | n in all && n !in tunnels ::
        && all[n].Valid() && all[n] in before
        && all[n].closed && all[n].active == before[all[n]].active && all[n].lastUsed == before[all[n]].lastUsed
    }

    ghost predicate Among(all: map<string, Tunnel>)
      reads this`tunnels
    {
      && (forall n | n in tunnels :: n in all && tunnels[n] == all[n])
      && (forall a, b | a in all && b in all && a != b :: all[a] != all[b])
    }

    lemma AtFirst()
      requires Valid()
      ensures AsIn(Snapshot()) && Left(tunnels, Snapshot()) && Among(tunnels)
    {
    }

    lemma AmongAt(all: map<string, Tunnel>, name: string)
      requires Among(all) && name in tunnels
      ensures name in all && tunnels[name] == all[name]
    {
    }

    /** One of all the tunnels is removed. */
    method RemoveOne(name: string, now: int, ghost all: map<string, Tunnel>, ghost before: map<Tunnel, State>)
      requires Valid() && name in tunnels && AsIn(before) && Left(all, before) && Among(all)
      modifies this, tunnels[name]
      ensures Valid() && tunnels == old(tunnels) - {name}
      ensures AsIn(before) && Left(all, before) && Among(all)
    {
      hide Valid;
      assert all[name] == tunnels[name];
      Evict(name, now);
      assert Among(all);
    }

    lemma IsKeyed(name: string)
      requires Valid() && name in tunnels
      ensures name != "" && IsKey(keys, tunnels[name].keyIndex) && |keyUse| == |keyLast| == keys
      ensures Books(max, keys, Keyed(), keyUse) && Lives()
      ensures name in Keyed() && Keyed()[name] == tunnels[name].keyIndex
    {
      assert name in Keyed();
    }

    /** A tunnel just opened, handed over in use. */
    method NewTunnel(key: int, now: int, until: int) returns (t: Tunnel)
      requires now <= until
      ensures fresh(t) && t.Valid() && t.keyIndex == key && HandedOver(t.Guarded(), now, until)
    {
      var at := Tick(now, until);
      t := new Tunnel(key, at);
      at := Tick(at, until);
      var _ := t.Use(at);
    }

    /** Which key to open with; -1 when the pool has none. */
    method ChooseKey(name: string, now: int) returns (key: int)
      requires |keyUse| == |keyLast| == keys
      ensures IsKey(keys, key)
      ensures keys > 0 ==> BestKey(key, name, now) && WellPicked(keyUse, keyLast, key, name, now)
      ensures forall i | 0 <= i < keys :: keyUse[key] <= keyUse[i]
    {
      key := -1;
      if keys > 0 {
        hide Better;
        key := PickKey(name, now);
        LeastUsed(key, name, now);
      }
    }

    /** A new tunnel, on the key ranked best when it was picked; opens is how
        the device's own opening went. */
    method Open(name: string, now: int, until: int, opens: bool) returns (r: Got, ghost key: int, ghost picked: int, ghost noted: int)
      requires Valid() && name != "" && name !in tunnels && (max > 0 ==> |tunnels| < max) && now <= until
      modifies this
      ensures Valid() && now <= picked <= noted <= until
      ensures !opens ==> r == OpenFailed && tunnels == old(tunnels) && keyUse == old(keyUse) && keyLast == old(keyLast)
      ensures opens ==>
                && r.Got? && fresh(r.tunnel) && HandedOver(r.tunnel.Guarded(), noted, until)
                && tunnels == old(tunnels)[name := r.tunnel]
                && keyUse == Adjusted(old(keyUse), r.tunnel.keyIndex, 1)
                && keyLast == Noted(old(keyLast), r.tunnel.keyIndex, Place(name, noted))
      ensures opens ==> r.tunnel.keyIndex == key
      ensures opens && keys > 0 ==> old(BestKey(key, name, picked)) && WellPicked(old(keyUse), old(keyLast), key, name, picked)
    {
      hide *;
      BooksOf();
      var at := Tick(now, until);
      var keyIndex := ChooseKey(name, at);
      key, picked, noted := keyIndex, at, at;
      if !opens {
        r := OpenFailed;
        return;
      }
      BooksWith(max, keys, Keyed(), keyUse, name, keyIndex);
      at := Tick(at, until);
      noted := at;
      var newcomer := NewTunnel(keyIndex, at, until);
      Note(keyIndex, 1, Place(name, at));
      Join(name, newcomer);
      IsValid();
      r := Got(newcomer);
    }

    /** At the limit, the tunnel longest unused goes; with all in use, none can. */
    method MakeRoom(now: int, until: int) returns (ok: bool, at: int, ghost victims: set<string>)
      requires Valid() && NotBefore(now) && now <= until
      modifies this, tunnels.Values
      ensures Valid() && AsIn(old(Snapshot())) && now <= at <= until
      ensures !ok <==> old(Full() && AllInUse())
      ensures tunnels == old(tunnels) - victims
      ensures victims == {} ==> keyUse == old(keyUse) && keyLast == old(keyLast)
      ensures ok ==> !Full()
      ensures ok && old(Full()) ==> exists v :: victims == {v} && old(LongestUnused(v, until - now))
      ensures !ok || !old(Full()) ==> victims == {}
    {
      hide *;
      AtFirst();
      ok, at, victims := true, now, {};
      if Full() {
        var victim;
        victim, at := PickVictim(now, until);
        if victim.None? {
          ok := false;
          return;
        }
        ghost var looking := at - now;
        assert LongestUnused(victim.value, looking);
        at := Tick(at, until);
        Wider(victim.value, looking, until - now);
        RemoveVictim(victim.value, until - now, at);
        victims := {victim.value};
      }
    }

    lemma Wider(victim: string, looking: int, longer: int)
      requires LongestUnused(victim, looking) && looking <= longer
      ensures LongestUnused(victim, longer)
    {
    }

    method RemoveVictim(victim: string, ghost looking: int, now: int)
      requires Valid() && LongestUnused(victim, looking)
      modifies this, tunnels.Values
      ensures Valid() && AsIn(old(Snapshot())) && !Full() && tunnels == old(tunnels) - {victim}
      ensures !old(AllInUse())
    {
      hide *;
      BooksOf();
      Victim(victim, looking);
      AtFirst();
      ghost var before := tunnels;
      RemoveOne(victim, now, tunnels, Snapshot());
      RoomFor(before, victim);
    }

    lemma Victim(name: string, looking: int)
      requires LongestUnused(name, looking)
      ensures name in tunnels && !AllInUse()
    {
    }

    lemma RoomFor(before: map<string, Tunnel>, name: string)
      requires name in before && (max > 0 ==> |before| <= max) && tunnels == before - {name}
      ensures !Full()
    {
      assert (before - {name}).Keys == before.Keys - {name};
    }

    /** Room for a tunnel, and the tunnel. */
    method OpenFresh(name: string, now: int, until: int, opens: bool) returns (r: Got, ghost gone: set<string>)
      requires Valid() && name != "" && NotBefore(now) && name !in tunnels && now <= until
      modifies this, tunnels.Values
      ensures Valid()
      ensures r.Got? ==>
                && fresh(r.tunnel) && HandedOver(r.tunnel.Guarded(), now, until)
                && tunnels == (old(tunnels) - gone)[name := r.tunnel]
      ensures !r.Got? ==> tunnels == old(tunnels) - gone
      ensures r.NoRoom? <==> old(Full() && AllInUse())
      ensures r.NoRoom? ==> keyUse == old(keyUse) && keyLast == old(keyLast) && gone == {}
      ensures gone == {} || exists v :: gone == {v} && old(Full() && LongestUnused(v, until - now))
    {
      hide *;
      var ok, at;
      ok, at, gone := MakeRoom(now, until);
      if !ok {
        return NoRoom, gone;
      }
      NotYet(name);
      ghost var key, picked, noted;
      r, key, picked, noted := Open(name, at, until, opens);
      if opens {
        HandedLater(r.tunnel.Guarded(), noted, now, until);
      }
    }

    lemma HandedLater(s: State, from: int, now: int, until: int)
      requires HandedOver(s, from, until) && now <= from
      ensures HandedOver(s, now, until)
    {
    }

    lemma NotYet(name: string)
      requires Valid() && name !in tunnels && !Full()
      ensures max > 0 ==> |tunnels| < max
    {
    }

    predicate OpenAt(name: string)
      reads this`tunnels, tunnels.Values
    {
      name in tunnels && !tunnels[name].closed
    }

    /** One attempt at a tunnel to a server: the one there is, or a new one,
        after making room at the limit. It takes from now until until, and
        reads the clock again and again; opens is how opening the device goes.
        A tunnel handed out is in use and not shut. Only two kinds leave the
        pool: the server's own if it was shut, and at the limit the one
        longest unused; never one in use. */
    method TryGet(name: string, now: int, until: int, opens: bool) returns (r: Got, ghost gone: set<string>)
      requires Valid() && name != "" && NotBefore(now) && now <= until
      modifies this, tunnels.Values
      ensures Valid()
      ensures old(OpenAt(name)) ==>
                && r == Got(old(tunnels)[name]) && r.tunnel.active == old(tunnels[name].active) + 1 && now <= r.tunnel.lastUsed <= until
                && tunnels == old(tunnels) && keyUse == old(keyUse) && keyLast == old(keyLast)
      ensures !old(OpenAt(name)) && r.Got? ==>
                && fresh(r.tunnel) && HandedOver(r.tunnel.Guarded(), now, until)
                && tunnels == (old(tunnels) - gone)[name := r.tunnel]
      ensures !r.Got? ==> tunnels == old(tunnels) - gone
      ensures r.NoRoom? <==> name !in old(tunnels) && old(Full() && AllInUse())
      ensures r.NoRoom? ==> keyUse == old(keyUse) && keyLast == old(keyLast) && gone == {}
      ensures !old(OpenAt(name)) && name in old(tunnels) ==> gone == {name}
      ensures name !in old(tunnels) ==> gone == {} || exists v :: gone == {v} && old(Full() && LongestUnused(v, until - now))
    {
      gone := {};
      if name in tunnels {
        var existing := tunnels[name];
        assert existing.Valid();
        var at := Tick(now, until);
        var ok := existing.Use(at);
        if ok {
          return Got(existing), {};
        }
        r, gone := Replace(name, now, until, opens);
        return;
      }
      hide *;
      r, gone := OpenFresh(name, now, until, opens);
    }

    /** The server's tunnel was shut behind the pool's back: it goes, and a
        new one is opened in its place. */
    method Replace(name: string, now: int, until: int, opens: bool) returns (r: Got, ghost gone: set<string>)
      requires Valid() && NotBefore(now) && name in tunnels && tunnels[name].closed && now <= until
      modifies this, tunnels.Values
      ensures Valid() && gone == {name} && !r.NoRoom?
      ensures r.Got? ==>
                && fresh(r.tunnel) && HandedOver(r.tunnel.Guarded(), now, until)
                && tunnels == old(tunnels)[name := r.tunnel]
      ensures !r.Got? ==> tunnels == old(tunnels) - {name}
    {
      hide *;
      ghost var before := tunnels;
      var at := Tick(now, until);
      RemoveShut(name, now, at);
      r, gone := OpenFresh(name, at, until, opens);
      gone := {name};
      if r.Got? {
        Replaced(before, name, r.tunnel);
        HandedLater(r.tunnel.Guarded(), at, now, until);
      }
    }

    method RemoveShut(name: string, ghost now: int, at: int)
      requires Valid() && NotBefore(now) && name in tunnels && now <= at
      modifies this, tunnels.Values
      ensures Valid() && NotBefore(at) && !Full() && tunnels == old(tunnels) - {name} && name != ""
    {
      AtFirst();
      IsKeyed(name);
      BooksOf();
      ghost var all, before := tunnels, Snapshot();
      NotBeforeAt(now);
      hide *;
      RemoveOne(name, at, all, before);
      StillNotBefore(at, before);
      RoomFor(all, name);
    }

    lemma NotBeforeAt(now: int)
      requires NotBefore(now)
      ensures forall t | t in Snapshot() :: Snapshot()[t].lastUsed <= now
    {
    }

    lemma StillNotBefore(now: int, before: map<Tunnel, State>)
      requires AsIn(before) && forall t | t in before :: before[t].lastUsed <= now
      ensures NotBefore(now)
    {
    }

    lemma Replaced(before: map<string, Tunnel>, name: string, t: Tunnel)
      ensures (before - {name})[name := t] == before[name := t]
    {
    }

    /** The tunnels idle for the idle time; one in use has been so for none. */
    ghost function Stale(all: map<string, Tunnel>, before: map<Tunnel, State>, now: int): set<string> {
      set n | n in all && all[n] in before && (if before[all[n]].active > 0 then 0 else now - before[all[n]].lastUsed) >= idle
    }

    /** With an idle time above zero, none of them is in use. */
    lemma StaleIsUnused(now: int)
      requires Valid() && idle > 0
      ensures forall n | n in Stale(tunnels, Snapshot(), now) :: tunnels[n].active == 0
    {
    }

    lemma StaleGrows(all: map<string, Tunnel>, before: map<Tunnel, State>, now: int, later: int)
      requires now <= later
      ensures Stale(all, before, now) <= Stale(all, before, later) <= all.Keys
    {
    }

    method ReapOne(name: string, from: int, until: int, ghost all: map<string, Tunnel>, ghost before: map<Tunnel, State>) returns (at: int)
      requires Valid() && name in tunnels && AsIn(before) && Left(all, before) && Among(all) && from <= until
      modifies this, tunnels[name]
      ensures Valid() && AsIn(before) && Left(all, before) && Among(all) && from <= at <= until
      ensures tunnels == if name in Stale(all, before, at) then old(tunnels) - {name} else old(tunnels)
    {
      hide Books;
      assert all[name] == tunnels[name];
      at := Tick(from, until);
      var idleFor := tunnels[name].IdleFor(at);
      assert tunnels[name].Valid();
      assert idleFor >= idle <==> name in Stale(all, before, at);
      if idleFor >= idle {
        hide *;
        RemoveOne(name, at, all, before);
      }
    }

    /** The tunnels idle for the idle time when it begins go, and none that is
        not by the time it ends. */
    method Reap(now: int, until: int) returns (ghost gone: set<string>)
      requires Valid() && now <= until
      modifies this, tunnels.Values
      ensures Valid() && tunnels == old(tunnels) - gone
      ensures old(Stale(tunnels, Snapshot(), now)) <= gone <= old(Stale(tunnels, Snapshot(), until))
      ensures AsIn(old(Snapshot())) && Left(old(tunnels), old(Snapshot()))
    {
      hide *;
      BooksOf();
      AtFirst();
      gone := {};
      var names, at := tunnels.Keys, now;
      ghost var all, before := tunnels, Snapshot();
      StaleGrows(all, before, now, until);
      while names != {}
        invariant Valid() && Among(all) && AsIn(before) && Left(all, before) && now <= at <= until
        invariant names <= tunnels.Keys && tunnels == all - gone && names !! gone
        invariant Stale(all, before, now) - names <= gone <= Stale(all, before, until)
        decreases |names|
      {
        var name :| name in names;
        AmongAt(all, name);
        at := ReapOne(name, at, until, all, before);
        StaleGrows(all, before, now, at);
        StaleGrows(all, before, at, until);
        if name in Stale(all, before, at) {
          WithoutBoth(all, gone, name);
          gone := gone + {name};
        }
        names := names - {name};
      }
    }

    lemma WithoutBoth(all: map<string, Tunnel>, gone: set<string>, name: string)
      ensures all - (gone + {name}) == all - gone - {name}
    {
    }

    /** One tunnel goes, e.g. after it failed. */
    method Forget(name: string, now: int)
      requires Valid()
      modifies this, tunnels.Values
      ensures Valid() && tunnels == old(tunnels) - {name}
      ensures AsIn(old(Snapshot())) && Left(old(tunnels), old(Snapshot()))
    {
      AtFirst();
      if name in tunnels {
        hide *;
        RemoveOne(name, now, tunnels, Snapshot());
      }
      assert name !in old(tunnels) ==> tunnels - {name} == tunnels;
    }

    /** All of them go; those in use close their devices when their last users leave. */
    method CloseAll(now: int)
      requires Valid()
      modifies this, tunnels.Values
      ensures Valid() && tunnels == map[]
      ensures Left(old(tunnels), old(Snapshot()))
    {
      hide *;
      AtFirst();
      var names := tunnels.Keys;
      ghost var all, before := tunnels, Snapshot();
      while names != {}
        invariant Valid() && Among(all) && AsIn(before) && Left(all, before)
        invariant names == tunnels.Keys
        decreases |names|
      {
        var name :| name in names;
        AmongAt(all, name);
        RemoveOne(name, now, all, before);
        names := names - {name};
      }
    }

    /** Between the pool's own sections any goroutines take any steps on its
        tunnels, and may be in the middle of some: the pool stays right, and no
        tunnel was last used later than their clocks and its own say. */
    twostate lemma UsersKeepValid(before: map<Tunnel, World>, actions: map<Tunnel, seq<Action>>, after: map<Tunnel, World>, now: int)
      requires old(Valid()) && unchanged(this)
      requires forall n | n in tunnels ::
                 var t := tunnels[n];
                 && t in before && t in actions && t in after
                 && Invariant(before[t]) && before[t].tunnel == old(t.Guarded()) && before[t].deviceCloses == old(t.deviceCloses)
                 && Leads(Step, before[t], actions[t], after[t])
                 && after[t].tunnel == t.Guarded() && after[t].deviceCloses == t.deviceCloses
      ensures Valid()
      ensures old(NotBefore(now)) && (forall n, a | n in tunnels && a in actions[tunnels[n]] :: ByThen(a, now)) ==> NotBefore(now)
    {
      forall n | n in tunnels
        ensures tunnels[n].Valid()
      {
        var t := tunnels[n];
        RunKeeps(before[t], actions[t], after[t]);
        InvariantIsRight(after[t]);
      }
      if old(NotBefore(now)) && forall n, a | n in tunnels && a in actions[tunnels[n]] :: ByThen(a, now) {
        forall n | n in tunnels
          ensures tunnels[n].lastUsed <= now
        {
          var t := tunnels[n];
          LastUsedByThen(before[t], actions[t], after[t], now);
        }
      }
    }
  }
}
