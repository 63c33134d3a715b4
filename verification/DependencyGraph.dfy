/** The dependency multigraph of registered services, stated without reference to any algorithm. */
module DependencyGraph {
  import opened Basics
  import opened Sequences

  /** Maps each registered service to the dependencies it was registered with, repetitions included. */
  type Deps = map<Name, seq<Name>>

  ghost predicate DepsKnown(g: Deps, ds: seq<Name>) {
    forall d :: d in ds ==> d in g
  }

  ghost predicate AllRegistered(g: Deps) {
    forall s :: s in g ==> DepsKnown(g, g[s])
  }

  /** Each service of `c` depends on the next one, and the last depends on the first. */
  ghost predicate IsCycle(g: Deps, c: seq<Name>) {
    && |c| > 0
    && (forall i :: 0 <= i < |c| ==> c[i] in g)
    && (forall i :: 0 <= i < |c| - 1 ==> c[i + 1] in g[c[i]])
    && c[0] in g[c[|c| - 1]]
  }

  ghost predicate Cyclic(g: Deps) {
    exists c :: IsCycle(g, c)
  }

  /** Every dependency of a listed service is listed strictly before it. */
  ghost predicate DepsFirst(g: Deps, order: seq<Name>) {
    forall i :: 0 <= i < |order| ==> order[i] in g && forall d :: d in g[order[i]] ==> d in order[..i]
  }

  lemma DepsFirstAppend(g: Deps, order: seq<Name>, s: Name)
    requires DepsFirst(g, order)
    ensures s in g && (forall d :: d in g[s] ==> d in order) ==> DepsFirst(g, order + [s])
  {
    if s in g && forall d :: d in g[s] ==> d in order {
      var longer := order + [s];
      forall i | 0 <= i < |longer| ensures longer[i] in g && forall d :: d in g[longer[i]] ==> d in longer[..i] {
        assert longer[..i] == order[..i];
        if i == |order| { assert order[..i] == order; }
      }
    }
  }

  /** A start order: every registered service exactly once, dependencies first. */
  ghost predicate IsStartOrder(g: Deps, order: seq<Name>) {
    && (forall s :: s in g ==> s in order)
    && Distinct(order)
    && DepsFirst(g, order)
  }

  /** How often `x` occurs in `s`. */
  function Times<T(==)>(s: seq<T>, x: T): nat {
    multiset(s)[x]
  }

  /** Number of listed dependencies, with repetitions, that are not in `done`. */
  function Remaining(ds: seq<Name>, done: set<Name>): nat {
    if ds == [] then 0
    else (if ds[0] in done then 0 else 1) + Remaining(ds[1..], done)
  }

  lemma {:induction false} RemainingNone(ds: seq<Name>)
    ensures Remaining(ds, {}) == |ds|
  {
    if ds != [] { RemainingNone(ds[1..]); }
  }

  lemma {:induction false} RemainingZero(ds: seq<Name>, done: set<Name>)
    ensures Remaining(ds, done) == 0 <==> forall d :: d in ds ==> d in done
  {
    if ds != [] {
      RemainingZero(ds[1..], done);
      assert forall d :: d in ds <==> d == ds[0] || d in ds[1..];
    }
  }

  /** Releasing one more service takes away exactly its multiplicity among the dependencies. */
  lemma {:induction false} RemainingRelease(ds: seq<Name>, done: set<Name>, s: Name)
    requires s !in done
    ensures Remaining(ds, done + {s}) == Remaining(ds, done) - Times(ds, s)
  {
    if ds != [] {
      RemainingRelease(ds[1..], done, s);
      assert ds == [ds[0]] + ds[1..];
    }
  }

  /** Each service of `walk` depends on the next one. */
  ghost predicate IsWalk(g: Deps, walk: seq<Name>) {
    && (forall i :: 0 <= i < |walk| ==> walk[i] in g)
    && (forall i :: 0 <= i < |walk| - 1 ==> walk[i + 1] in g[walk[i]])
  }

  ghost predicate DependsInto(g: Deps, s: Name, u: set<Name>)
    requires s in g
  {
    exists d :: d in g[s] && d in u
  }

  /** Following dependencies inside a set whose members all depend on members closes a cycle. */
  lemma {:induction false} CloseCycle(g: Deps, u: set<Name>, walk: seq<Name>) returns (c: seq<Name>)
    requires u <= g.Keys && forall s :: s in u ==> DependsInto(g, s, u)
    requires |walk| > 0 && Distinct(walk) && IsWalk(g, walk)
    requires forall i :: 0 <= i < |walk| ==> walk[i] in u
    ensures IsCycle(g, c) && forall i :: 0 <= i < |c| ==> c[i] in u
    decreases |u| - |walk|
  {
    var last := walk[|walk| - 1];
    assert DependsInto(g, last, u);
    var d :| d in g[last] && d in u;
    if d in walk {
      c := CutCycle(g, walk, d);
    } else {
      DistinctFits(walk + [d], u);
      ExtendWalk(g, walk, d);
      c := CloseCycle(g, u, walk + [d]);
    }
  }

  lemma ExtendWalk(g: Deps, walk: seq<Name>, d: Name)
    requires |walk| > 0 && IsWalk(g, walk) && d in g && d in g[walk[|walk| - 1]]
    ensures IsWalk(g, walk + [d])
  {
    var w := walk + [d];
    forall i | 0 <= i < |w| - 1 ensures w[i + 1] in g[w[i]] {
      if i < |walk| - 1 { assert walk[i + 1] in g[walk[i]]; }
    }
  }

  lemma CutCycle(g: Deps, walk: seq<Name>, d: Name) returns (c: seq<Name>)
    requires |walk| > 0 && IsWalk(g, walk) && d in walk && d in g[walk[|walk| - 1]]
    ensures IsCycle(g, c) && forall i :: 0 <= i < |c| ==> c[i] in walk
  {
    var k :| 0 <= k < |walk| && walk[k] == d;
    c := walk[k..];
    forall i | 0 <= i < |c| - 1 ensures c[i + 1] in g[c[i]] {
      assert walk[k + i + 1] in g[walk[k + i]];
    }
  }

  /** Walking back a cycle moves at least one place towards the front of a start order each time. */
  lemma {:induction false} CycleWalksBack(g: Deps, order: seq<Name>, c: seq<Name>, k: nat, p: nat) returns (q: nat)
    requires DepsFirst(g, order) && IsCycle(g, c)
    requires k < |c| && p < |order| && order[p] == c[0]
    ensures q + k <= p && order[q] == c[k]
  {
    if k == 0 {
      q := p;
    } else {
      var r := CycleWalksBack(g, order, c, k - 1, p);
      assert c[k - 1 + 1] in g[c[k - 1]];
      assert c[k] in order[..r];
      q :| 0 <= q < r && order[q] == c[k];
    }
  }

  /** No start order exists for a graph with a cycle. */
  lemma OrderMeansAcyclic(g: Deps, order: seq<Name>)
    requires IsStartOrder(g, order)
    ensures !Cyclic(g)
  {
    if c :| IsCycle(g, c) {
      var p :| 0 <= p < |order| && order[p] == c[0];
      var q := CycleWalksBack(g, order, c, |c| - 1, p);
    }
  }
}
