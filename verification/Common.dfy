/** Shared vocabulary: optional values, small arithmetic, runs of a state
    machine, and the sort the Go code leans on. */
module Common {

  type byte = x: int | 0 <= x < 256

  datatype Option<+T> = None | Some(value: T)

  function Max(x: int, y: int): int { if x > y then x else y }

  function Pow2(n: nat): (p: nat)
    ensures p >= 1
  {
    if n == 0 then 1 else 2 * Pow2(n - 1)
  }

  /** Some number the set does not have. */
  lemma FreshNumber(taken: set<nat>) returns (n: nat)
    ensures n !in taken
  {
    n := 0;
    var left := taken;
    while left != {}
      invariant left <= taken && forall x | x in taken && x !in left :: x < n
      decreases |left|
    {
      var x :| x in left;
      left := left - {x};
      n := Max(n, x + 1);
    }
  }

  /** The actions, each a step when its turn comes, lead from one state to another. */
  ghost predicate Leads<W(!new), A(!new)>(step: (W, A, W) -> bool, from: W, actions: seq<A>, to: W) {
    if actions == [] then from == to
    else
      var n := |actions| - 1;
      exists w: W :: Leads(step, from, actions[..n], w) && step(w, actions[n], to)
  }

  /** One more step. */
  lemma LeadsOn<W(!new), A(!new)>(step: (W, A, W) -> bool, from: W, actions: seq<A>, w: W, a: A, to: W)
    requires Leads(step, from, actions, w) && step(w, a, to)
    ensures Leads(step, from, actions + [a], to)
  {
    assert (actions + [a])[..|actions|] == actions;
  }

  /** The step a run ends with. */
  lemma LastStep<W(!new), A(!new)>(step: (W, A, W) -> bool, from: W, actions: seq<A>, to: W) returns (w: W)
    requires Leads(step, from, actions, to) && actions != []
    ensures Leads(step, from, actions[..|actions| - 1], w) && step(w, actions[|actions| - 1], to)
  {
    w :| Leads(step, from, actions[..|actions| - 1], w) && step(w, actions[|actions| - 1], to);
  }

  lemma FourSteps<W(!new), A(!new)>(step: (W, A, W) -> bool, from: W, a: A, u: W, b: A, v: W, c: A, w: W, d: A, to: W)
    requires step(from, a, u) && step(u, b, v) && step(v, c, w) && step(w, d, to)
    ensures Leads(step, from, [a, b, c, d], to)
  {
    assert Leads(step, from, [], from);
    hide Leads;
    LeadsOn(step, from, [], from, a, u);
    LeadsOn(step, from, [] + [a], u, b, v);
    LeadsOn(step, from, [] + [a] + [b], v, c, w);
    LeadsOn(step, from, [] + [a] + [b] + [c], w, d, to);
    assert [] + [a] + [b] + [c] + [d] == [a, b, c, d];
  }

  ghost predicate SortedBy<T>(s: seq<T>, key: T -> int) {
    forall p, q | 0 <= p < q < |s| :: key(s[p]) <= key(s[q])
  }

  function InsertAt<T>(s: seq<T>, k: nat, x: T): (r: seq<T>)
    requires k <= |s|
    ensures |r| == |s| + 1
  {
    s[..k] + [x] + s[k..]
  }

  lemma InsertedElements<T>(s: seq<T>, k: nat, x: T)
    requires k <= |s|
    ensures multiset(InsertAt(s, k, x)) == multiset(s) + multiset{x}
  {
    assert s == s[..k] + s[k..];
  }

  lemma InsertedSorted<T>(s: seq<T>, k: nat, x: T, key: T -> int)
    requires k <= |s| && SortedBy(s, key)
    requires forall p | 0 <= p < k :: key(s[p]) <= key(x)
    requires k < |s| ==> key(x) <= key(s[k])
    ensures SortedBy(InsertAt(s, k, x), key)
  {
    var r := InsertAt(s, k, x);
    forall p, q | 0 <= p < q < |r|
      ensures key(r[p]) <= key(r[q])
    {
      assert r[p] == if p < k then s[p] else if p == k then x else s[p - 1];
      assert r[q] == if q < k then s[q] else if q == k then x else s[q - 1];
    }
  }

  /** Where x goes in a sorted sequence. */
  method Position<T>(s: seq<T>, x: T, key: T -> int) returns (k: nat)
    requires SortedBy(s, key)
    ensures k <= |s|
    ensures SortedBy(InsertAt(s, k, x), key)
  {
    k := 0;
    while k < |s| && key(s[k]) <= key(x)
      invariant k <= |s|
      invariant forall p | 0 <= p < k :: key(s[p]) <= key(x)
    {
      k := k + 1;
    }
    InsertedSorted(s, k, x, key);
  }

  /** sort.Slice promises a sorted permutation and nothing about ties. */
  method Sort<T>(items: seq<T>, key: T -> int) returns (sorted: seq<T>)
    ensures SortedBy(sorted, key)
    ensures multiset(sorted) == multiset(items)
  {
    sorted := [];
    for i := 0 to |items|
      invariant SortedBy(sorted, key)
      invariant multiset(sorted) == multiset(items[..i])
    {
      var k := Position(sorted, items[i], key);
      InsertedElements(sorted, k, items[i]);
      assert items[..i + 1] == items[..i] + [items[i]];
      sorted := InsertAt(sorted, k, items[i]);
    }
    assert items[..|items|] == items;
  }

  lemma SameElements<T>(a: seq<T>, b: seq<T>)
    requires multiset(a) == multiset(b)
    ensures |a| == |b|
    ensures forall x :: x in a <==> x in b
  {
    assert |a| == |multiset(a)|;
    assert |b| == |multiset(b)|;
    assert forall x :: x in a <==> x in multiset(a);
    assert forall x :: x in b <==> x in multiset(b);
  }

  ghost predicate DistinctBy<T>(s: seq<T>, key: T -> int) {
    forall p, q | 0 <= p < q < |s| :: key(s[p]) != key(s[q])
  }

  lemma TwiceInMultiset<T>(b: seq<T>, p: nat, q: nat)
    requires p < q < |b| && b[p] == b[q]
    ensures multiset(b)[b[p]] >= 2
  {
    assert b == b[..q] + ([b[q]] + b[q + 1..]);
    assert b[..q][p] == b[p];
    assert multiset(b[..q])[b[p]] >= 1;
  }

  lemma OnceInMultiset<T>(a: seq<T>, i: nat, key: T -> int)
    requires DistinctBy(a, key) && i < |a|
    ensures multiset(a)[a[i]] == 1
  {
    assert a == a[..i] + ([a[i]] + a[i + 1..]);
    assert a[i] !in a[..i] && a[i] !in a[i + 1..];
  }

  /** A permutation of items with distinct keys has distinct keys. */
  lemma PermutedDistinct<T>(a: seq<T>, b: seq<T>, key: T -> int)
    requires multiset(a) == multiset(b)
    requires DistinctBy(a, key)
    ensures DistinctBy(b, key)
  {
    SameElements(a, b);
    forall p, q | 0 <= p < q < |b|
      ensures key(b[p]) != key(b[q])
    {
      if key(b[p]) == key(b[q]) {
        assert b[p] in a && b[q] in a;
        var i :| 0 <= i < |a| && a[i] == b[p];
        var j :| 0 <= j < |a| && a[j] == b[q];
        TwiceInMultiset(b, p, q);
        OnceInMultiset(a, i, key);
        assert false;
      }
    }
  }
}
