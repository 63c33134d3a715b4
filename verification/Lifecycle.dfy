/** The lifecycle manager itself, with map iteration in any order. */
module Lifecycle {
  import opened Basics
  import opened Sequences
  import opened DependencyGraph
  import opened LifecycleRuns

  /** The identity of a registered service object. */
  type Service = nat

  datatype Error =
    | EmptyName
    | NilService
    | AlreadyStarted
    | AlreadyRegistered
    | UnregisteredDependency(dep: Name, service: Name)
    | CircularDependency
    | StartFailed(name: Name)
    | AlreadyStopping
    | StopFailed(index: nat)

  /** The error names a dependency that some registered service has and that is not registered. */
  predicate NamesMissing(g: Deps, e: Error) {
    e.UnregisteredDependency? && e.service in g && e.dep in g[e.service] && e.dep !in g
  }

  /** In-degrees and reverse edges agree with the registered dependencies. */
  ghost predicate Counts(g: Deps, inDegree: map<Name, int>, graph: map<Name, seq<Name>>) {
    && inDegree.Keys == g.Keys && graph.Keys == g.Keys
    && (forall s :: s in g ==> inDegree[s] == |g[s]|)
    && ReverseEdges(g, graph)
  }

  /** `graph[d]` lists each service as often as that service lists `d`. */
  ghost predicate ReverseEdges(g: Deps, graph: map<Name, seq<Name>>)
    requires graph.Keys == g.Keys
  {
    && (forall d, s {:trigger s in graph[d]} :: d in g && s in graph[d] ==> s in g)
    && (forall d, s {:trigger Times(graph[d], s)} :: d in g && s in g ==> Times(graph[d], s) == Times(g[s], d))
  }

  /** The state of the release loop: `inDegree` counts the dependencies not yet output. */
  ghost predicate Releasing(g: Deps, inDegree: map<Name, int>, queue: seq<Name>, result: seq<Name>) {
    && inDegree.Keys == g.Keys
    && Distinct(result + queue)
    && (forall s :: s in g ==> inDegree[s] == Remaining(g[s], Elems(result)))
    && (forall s :: s in result + queue <==> s in g && inDegree[s] == 0)
  }

  lemma AddReverseEdge(h: Deps, graph: map<Name, seq<Name>>, service: Name, dep: Name)
    requires graph.Keys == h.Keys && ReverseEdges(h, graph) && service in h && dep in h
    ensures ReverseEdges(h[service := h[service] + [dep]], graph[dep := graph[dep] + [service]])
  {
    var h', graph' := h[service := h[service] + [dep]], graph[dep := graph[dep] + [service]];
    forall d, s | d in h' && s in h' ensures Times(graph'[d], s) == Times(h'[s], d) {
      assert Times(graph[d], s) == Times(h[s], d);
    }
  }

  /** Recording one edge keeps in-degrees and reverse edges in agreement with the edges recorded so far. */
  lemma AddEdge(h: Deps, inDegree: map<Name, int>, graph: map<Name, seq<Name>>, service: Name, dep: Name)
    requires Counts(h, inDegree, graph) && service in h && dep in h
    ensures Counts(h[service := h[service] + [dep]], inDegree[service := inDegree[service] + 1],
                   graph[dep := graph[dep] + [service]])
  {
    AddReverseEdge(h, graph, service, dep);
  }

  /** The dependencies recorded once all services but those in `todo` are handled. */
  ghost function RecordedBut(g: Deps, todo: set<Name>): Deps {
    map s | s in g :: if s in todo then [] else g[s]
  }

  lemma RecordNext(g: Deps, todo: set<Name>, service: Name)
    requires service in todo && todo <= g.Keys
    ensures RecordedBut(g, todo)[service := g[service]] == RecordedBut(g, todo - {service})
    ensures KnownBut(g, todo) && DepsKnown(RecordedBut(g, todo), g[service]) ==> KnownBut(g, todo - {service})
  {
  }

  ghost predicate KnownBut(g: Deps, todo: set<Name>) {
    forall s :: s in g && s !in todo ==> DepsKnown(g, g[s])
  }

  lemma NothingRecorded(g: Deps, inDegree: map<Name, int>, graph: map<Name, seq<Name>>)
    requires inDegree == (map s | s in g :: 0) && graph == (map s | s in g :: [])
    ensures Counts(RecordedBut(g, g.Keys), inDegree, graph) && KnownBut(g, g.Keys)
  {
  }

  lemma AllRecorded(g: Deps)
    ensures RecordedBut(g, {}) == g && (KnownBut(g, {}) ==> AllRegistered(g))
  {
  }

  /** Records the dependencies of one service, up to the first that is not registered. */
  method AddService(ghost h: Deps, service: Name, deps: seq<Name>, inDegree0: map<Name, int>, graph0: map<Name, seq<Name>>)
    returns (missing: Option<Name>, inDegree: map<Name, int>, graph: map<Name, seq<Name>>)
    requires Counts(h, inDegree0, graph0) && service in h && h[service] == []
    ensures missing.Some? ==> missing.value in deps && missing.value !in h
    ensures missing.None? ==> Counts(h[service := deps], inDegree, graph) && DepsKnown(h, deps)
  {
    inDegree, graph := inDegree0, graph0;
    ghost var recorded := h;
    var i := 0;
    while i < |deps|
      invariant 0 <= i <= |deps|
      invariant recorded == h[service := deps[..i]]
      invariant Counts(recorded, inDegree, graph)
      invariant forall k :: 0 <= k < i ==> deps[k] in h
    {
      var dep := deps[i];
      if dep !in graph {
        return Some(dep), inDegree, graph;
      }
      assert deps[..i + 1] == deps[..i] + [dep];
      AddEdge(recorded, inDegree, graph, service, dep);
      graph := graph[dep := graph[dep] + [service]];
      inDegree := inDegree[service := inDegree[service] + 1];
      recorded := recorded[service := recorded[service] + [dep]];
      i := i + 1;
    }
    assert deps[..i] == deps;
    return None, inDegree, graph;
  }

  method BuildGraph(g: Deps)
    returns (r: Result<(map<Name, int>, map<Name, seq<Name>>), Error>)
    ensures r.Ok? ==> AllRegistered(g) && Counts(g, r.value.0, r.value.1)
    ensures r.Err? ==> NamesMissing(g, r.error)
  {
    var inDegree: map<Name, int> := map s | s in g :: 0;
    var graph: map<Name, seq<Name>> := map s | s in g :: [];
    NothingRecorded(g, inDegree, graph);
    ghost var recorded := RecordedBut(g, g.Keys);
    var todo := g.Keys;
    while todo != {}
      invariant todo <= g.Keys && recorded == RecordedBut(g, todo)
      invariant Counts(recorded, inDegree, graph)
      invariant KnownBut(g, todo)
      decreases todo
    {
      var service :| service in todo;
      var missing, inDegree', graph' := AddService(recorded, service, g[service], inDegree, graph);
      if missing.Some? {
        return Err(UnregisteredDependency(missing.value, service));
      }
      RecordNext(g, todo, service);
      todo := todo - {service};
      inDegree, graph, recorded := inDegree', graph', RecordedBut(g, todo);
    }
    AllRecorded(g);
    return Ok((inDegree, graph));
  }

  method InitialQueue(g: Deps, inDegree: map<Name, int>) returns (queue: seq<Name>)
    requires inDegree.Keys == g.Keys && forall s :: s in g ==> inDegree[s] == |g[s]|
    ensures Releasing(g, inDegree, queue, [])
  {
    queue := [];
    var todo := inDegree.Keys;
    while todo != {}
      invariant todo <= inDegree.Keys
      invariant Distinct(queue)
      invariant forall s :: s in queue <==> s in g.Keys - todo && inDegree[s] == 0
      decreases todo
    {
      var service :| service in todo;
      if inDegree[service] == 0 {
        queue := queue + [service];
      }
      todo := todo - {service};
    }
    forall s | s in g ensures inDegree[s] == Remaining(g[s], Elems<Name>([])) {
      assert Elems<Name>([]) == {};
      RemainingNone(g[s]);
    }
    assert [] + queue == queue;
  }

  lemma FrontOfQueueIsNew(result: seq<Name>, queue: seq<Name>)
    requires queue != [] && Distinct(result + queue)
    ensures queue[0] !in result && queue[0] in result + queue
  {
    assert (result + queue)[|result|] == queue[0];
    forall k | 0 <= k < |result| ensures result[k] != queue[0] {
      assert (result + queue)[k] == result[k];
    }
  }

  lemma PrefixTimes(s: seq<Name>, i: nat)
    requires i < |s|
    ensures s[..i + 1] == s[..i] + [s[i]] && Times(s[..i], s[i]) < Times(s, s[i])
  {
    assert s == s[..i] + [s[i]] + s[i + 1..];
  }

  /** Half-way through releasing a service: `lowered` lists the dependents handled so far. */
  ghost predicate Lowering(g: Deps, inDegree: map<Name, int>, ready: seq<Name>, done: set<Name>, lowered: seq<Name>) {
    && inDegree.Keys == g.Keys
    && Distinct(ready)
    && (forall s :: s in g ==> inDegree[s] == Remaining(g[s], done) - Times(lowered, s))
    && (forall s :: s in ready <==> s in g && inDegree[s] == 0)
  }

  /** Lowering one more dependent, which joins the ready services exactly when its last dependency is gone. */
  lemma LowerOne(g: Deps, inDegree: map<Name, int>, ready: seq<Name>, done: set<Name>, lowered: seq<Name>, s: Name)
    requires Lowering(g, inDegree, ready, done, lowered) && s in g
    requires Times(lowered, s) < Remaining(g[s], done)
    ensures var inDegree' := inDegree[s := inDegree[s] - 1];
            Lowering(g, inDegree', if inDegree'[s] == 0 then ready + [s] else ready, done, lowered + [s])
  {
  }

  /** After all dependents of `current` are lowered, the release invariant holds with `current` output. */
  lemma ReleaseDone(g: Deps, inDegree: map<Name, int>, queue: seq<Name>, result0: seq<Name>, current: Name, lowered: seq<Name>)
    requires current !in result0
    requires Lowering(g, inDegree, result0 + [current] + queue, Elems(result0), lowered)
    requires forall s :: s in g ==> Times(lowered, s) == Times(g[s], current)
    ensures Releasing(g, inDegree, queue, result0 + [current])
  {
    var result, done := result0 + [current], Elems(result0);
    assert Elems(result) == done + {current};
    forall s | s in g ensures inDegree[s] == Remaining(g[s], Elems(result)) {
      RemainingRelease(g[s], done, current);
    }
  }

  /** Lowers the in-degree of each dependent, enqueueing those that reach zero. `output` is already released. */
  method LowerDependents(g: Deps, dependents: seq<Name>, inDegree0: map<Name, int>, queue0: seq<Name>,
                         ghost output: seq<Name>, ghost done: set<Name>)
    returns (inDegree: map<Name, int>, queue: seq<Name>)
    requires Lowering(g, inDegree0, output + queue0, done, [])
    requires forall s {:trigger s in dependents} :: s in dependents ==> s in g && Times(dependents, s) <= Remaining(g[s], done)
    ensures Lowering(g, inDegree, output + queue, done, dependents)
  {
    inDegree, queue := inDegree0, queue0;
    ghost var ready := output + queue;
    ghost var lowered: seq<Name> := [];
    for i := 0 to |dependents|
      invariant ready == output + queue && lowered == dependents[..i]
      invariant Lowering(g, inDegree, ready, done, lowered)
    {
      var dependent := dependents[i];
      assert dependent in dependents;
      PrefixTimes(dependents, i);
      LowerOne(g, inDegree, ready, done, lowered, dependent);
      inDegree := inDegree[dependent := inDegree[dependent] - 1];
      lowered := lowered + [dependent];
      if inDegree[dependent] == 0 {
        queue, ready := queue + [dependent], ready + [dependent];
      }
    }
    assert lowered == dependents;
  }

  /** Removes one service from the queue and releases its dependents. */
  method Release(g: Deps, graph: map<Name, seq<Name>>, inDegree0: map<Name, int>, queue0: seq<Name>, result0: seq<Name>)
    returns (inDegree: map<Name, int>, queue: seq<Name>, result: seq<Name>)
    requires graph.Keys == g.Keys && ReverseEdges(g, graph)
    requires Releasing(g, inDegree0, queue0, result0) && queue0 != []
    ensures Releasing(g, inDegree, queue, result)
    ensures result == result0 + [queue0[0]]
    ensures queue0[0] in g && forall d :: d in g[queue0[0]] ==> d in result0
  {
    var current := queue0[0];
    ghost var done := Elems(result0);
    FrontOfQueueIsNew(result0, queue0);
    RemainingZero(g[current], done);
    queue := queue0[1..];
    result := result0 + [current];
    assert result + queue == result0 + queue0;
    forall s | s in g
      ensures Times(graph[current], s) == Times(g[s], current) <= Remaining(g[s], done)
    {
      RemainingRelease(g[s], done, current);
    }
    inDegree, queue := LowerDependents(g, graph[current], inDegree0, queue, result, done);
    ReleaseDone(g, inDegree, queue, result0, current, graph[current]);
  }

  /** When the queue is empty, every service left over depends on a service left over. */
  lemma LeftoverDepends(g: Deps, inDegree: map<Name, int>, result: seq<Name>, s: Name)
    requires AllRegistered(g) && Releasing(g, inDegree, [], result) && s in g && s !in result
    ensures DependsInto(g, s, g.Keys - Elems(result))
  {
    assert result + [] == result;
    var done := Elems(result);
    RemainingZero(g[s], done);
    var d :| d in g[s] && d !in done;
    assert d in g.Keys - done;
  }

  lemma SomethingLeft(g: Deps, result: seq<Name>) returns (s: Name)
    requires Distinct(result) && |result| != |g| && forall i :: 0 <= i < |result| ==> result[i] in g
    ensures s in g && s !in result
  {
    DistinctFits(result, g.Keys);
    if forall x :: x in g.Keys ==> x in result {
      SetFits(g.Keys, result);
    }
    s :| s in g && s !in result;
  }

  /** When the queue runs dry early, the services left over contain a cycle. */
  lemma LeftoverIsCyclic(g: Deps, inDegree: map<Name, int>, result: seq<Name>) returns (c: seq<Name>)
    requires AllRegistered(g) && Releasing(g, inDegree, [], result) && |result| != |g|
    ensures IsCycle(g, c) && forall i :: 0 <= i < |c| ==> c[i] !in result
  {
    var left := g.Keys - Elems(result);
    forall s | s in left ensures DependsInto(g, s, left) {
      LeftoverDepends(g, inDegree, result, s);
    }
    assert result + [] == result;
    var s := SomethingLeft(g, result);
    c := CloseCycle(g, left, [s]);
  }

  /** Kahn's algorithm, for every iteration order of the maps. */
  method CalculateStartOrder(g: Deps) returns (r: Result<seq<Name>, Error>)
    ensures r.Ok? ==> IsStartOrder(g, r.value)
    ensures r.Ok? <==> AllRegistered(g) && !Cyclic(g)
    ensures r == Err(CircularDependency) <==> AllRegistered(g) && Cyclic(g)
    ensures r.Err? && r.error != CircularDependency ==> NamesMissing(g, r.error)
  {
    var built := BuildGraph(g);
    if built.Err? {
      return Err(built.error);
    }
    var inDegree, graph := built.value.0, built.value.1;
    var queue := InitialQueue(g, inDegree);
    var result := [];
    while |queue| > 0
      invariant Releasing(g, inDegree, queue, result)
      invariant DepsFirst(g, result)
      decreases |g| - |result|
    {
      assert forall i :: 0 <= i < |result + queue| ==> (result + queue)[i] in g.Keys;
      DistinctFits(result + queue, g.Keys);
      DepsFirstAppend(g, result, queue[0]);
      inDegree, queue, result := Release(g, graph, inDegree, queue, result);
    }
    if |result| != |g| {
      ghost var c := LeftoverIsCyclic(g, inDegree, result);
      return Err(CircularDependency);
    }
    assert result + queue == result;
    DistinctFits(result, g.Keys);
    OrderMeansAcyclic(g, result);
    return Ok(result);
  }

  /** Reverses an array by swapping from the middle outwards. */
  method ReverseInPlace<T>(a: array<T>)
    modifies a
    ensures a[..] == Reverse(old(a[..]))
  {
    var n := a.Length;
    var i := n / 2 - 1;
    while i >= 0
      invariant -1 <= i <= n / 2 - 1
      invariant forall k :: 0 <= k <= i || n - 1 - i <= k < n ==> a[k] == old(a[k])
      invariant forall k :: i < k < n - 1 - i ==> a[k] == old(a[n - 1 - k])
    {
      var opp := n - 1 - i;
      a[i], a[opp] := a[opp], a[i];
      i := i - 1;
    }
  }

  class LifecycleManager {
    var services: map<Name, Service>
    var dependencies: Deps
    var startOrder: seq<Name>
    var started: bool
    var stopping: bool
    ghost var history: seq<Op>

    /** What every run keeps: among others, no call ever sees a stop in progress. */
    ghost predicate Valid()
      reads this
    {
      dependencies.Keys == services.Keys && Inv(Abs())
    }

    ghost function Abs(): State
      reads this
    {
      State(dependencies, startOrder, started, stopping, history)
    }

    constructor ()
      ensures Valid() && Init(Abs())
    {
      services, dependencies := map[], map[];
      startOrder, started, stopping, history := [], false, false, [];
    }

    method Register(name: Name, service: Option<Service>, deps: seq<Name>) returns (r: Result<(), Error>)
      requires Valid()
      modifies this
      ensures Valid()
      ensures r.Ok? ==> service.Some? && RegisterStep(old(Abs()), name, deps, Abs()) &&
                        services == old(services)[name := service.value]
      ensures r.Err? ==> Abs() == old(Abs()) && services == old(services)
      ensures r.Ok? <==> name.text != "" && service.Some? && !old(started) && name !in old(services)
      ensures r == Err(EmptyName) <==> name.text == ""
      ensures r == Err(NilService) <==> name.text != "" && service.None?
      ensures r == Err(AlreadyStarted) <==> name.text != "" && service.Some? && old(started)
    {
      if name.text == "" { return Err(EmptyName); }
      if service.None? { return Err(NilService); }
      if started { return Err(AlreadyStarted); }
      if name in services { return Err(AlreadyRegistered); }
      services := services[name := service.value];
      dependencies := dependencies[name := deps];
      history := history + [Registered(name)];
      RegisterKeepsInv(old(Abs()), name, deps, Abs());
      return Ok(());
    }

    /** `startOk(i)` says whether the i-th service's own Start succeeds this time. */
    method Start(startOk: nat -> bool) returns (r: Result<(), Error>)
      requires Valid()
      modifies this
      ensures Valid() && services == old(services)
      ensures old(started) ==> r == Err(AlreadyStarted)
      ensures r.Ok? || r.error.StartFailed? ==>
        exists order, calls :: StartStep(old(Abs()), order, calls, Abs()) && Outcomes(calls, startOk) &&
          (r.Err? ==> LastFailed(calls, r.error.name))
      ensures r.Ok? ==> started && !old(started)
      ensures r.Err? ==> started == old(started)
      ensures r.Err? && !r.error.StartFailed? ==> Abs() == old(Abs())
      ensures !old(started) && AllRegistered(dependencies) && !Cyclic(dependencies) ==> r.Ok? || r.error.StartFailed?
      ensures !old(started) && AllRegistered(dependencies) && Cyclic(dependencies) ==> r == Err(CircularDependency)
      ensures !old(started) && !AllRegistered(dependencies) ==> r.Err? && NamesMissing(dependencies, r.error)
    {
      if started { return Err(AlreadyStarted); }
      var calculated := CalculateStartOrder(dependencies);
      if calculated.Err? { return Err(calculated.error); }
      ghost var before := Abs();
      var failed, calls := StartInOrder(calculated.value, startOk);
      history := history + [StartRun(calls)];
      assert failed.Some? ==> !calls[|calls| - 1].ok;
      started := failed.None?;
      assert StartStep(before, calculated.value, calls, Abs());
      StartKeepsInv(before, calculated.value, calls, Abs());
      return if failed.Some? then Err(StartFailed(failed.value)) else Ok(());
    }

    /** Starts the services of `order` up to the first that fails, appending to `startOrder` after each success. */
    method StartInOrder(order: seq<Name>, startOk: nat -> bool) returns (failed: Option<Name>, ghost calls: seq<Call>)
      modifies this`startOrder
      ensures Names(calls) <= order && Outcomes(calls, startOk) && AllOk(OkPart(calls))
      ensures startOrder == old(startOrder) + Names(OkPart(calls))
      ensures failed.None? ==> AllOk(calls) && |calls| == |order|
      ensures failed.Some? ==> LastFailed(calls, failed.value)
    {
      calls := [];
      var i := 0;
      while i < |order|
        invariant 0 <= i <= |order| && |calls| == i
        invariant AllOk(calls) && Names(calls) == order[..i] && Outcomes(calls, startOk)
        invariant startOrder == old(startOrder) + Names(calls)
      {
        ghost var next := calls + [Call(order[i], startOk(i))];
        assert order[..i + 1] == order[..i] + [order[i]];
        assert Names(next) == Names(calls) + [order[i]];
        if !startOk(i) {
          assert OkPart(next) == calls;
          return Some(order[i]), next;
        }
        startOrder := startOrder + [order[i]];
        calls := next;
        i := i + 1;
      }
      return None, calls;
    }

    /** `stopOk(i)` says whether the i-th service's own Stop succeeds. */
    method Stop(stopOk: nat -> bool) returns (r: Result<(), Error>)
      requires Valid()
      modifies this
      ensures Valid() && services == old(services)
      ensures !old(started) ==> r.Ok? && Abs() == old(Abs())
      ensures r != Err(AlreadyStopping)
      ensures old(started) ==> exists calls :: StopStep(old(Abs()), calls, Abs()) && Outcomes(calls, stopOk)
      ensures old(started) ==> (r.Ok? <==> forall i :: 0 <= i < |old(startOrder)| ==> stopOk(i))
      ensures old(started) && r.Err? ==>
        && r.error.StopFailed? && r.error.index < |old(startOrder)| && !stopOk(r.error.index)
        && forall i :: r.error.index < i < |old(startOrder)| ==> stopOk(i)
    {
      if !started { return Ok(()); }
      if stopping { return Err(AlreadyStopping); }
      ghost var before := Abs();
      stopping := true;
      var stopOrder := new Name[|startOrder|](i requires 0 <= i < |startOrder| reads this => startOrder[i]);
      assert stopOrder[..] == startOrder;
      ReverseInPlace(stopOrder);
      assert stopOrder[..] == Reverse(before.startOrder);
      var lastError, calls := StopInOrder(stopOrder[..], stopOk);
      started, stopping, startOrder := false, false, [];
      history := history + [StopRun(calls)];
      assert StopStep(before, calls, Abs());
      StopKeepsInv(before, calls, Abs());
      return if lastError.Some? then Err(StopFailed(lastError.value)) else Ok(());
    }

    /** Stops every service of `order`, whatever fails, and reports the last failure. */
    method StopInOrder(order: seq<Name>, stopOk: nat -> bool) returns (lastError: Option<nat>, ghost calls: seq<Call>)
      ensures Names(calls) == order && Outcomes(calls, stopOk)
      ensures lastError.None? ==> forall i :: 0 <= i < |order| ==> stopOk(i)
      ensures lastError.Some? ==>
        && lastError.value < |order| && !stopOk(lastError.value)
        && forall i :: lastError.value < i < |order| ==> stopOk(i)
    {
      lastError, calls := None, [];
      for i := 0 to |order|
        invariant |calls| == i && Names(calls) == order[..i] && Outcomes(calls, stopOk)
        invariant lastError.None? ==> forall k :: 0 <= k < i ==> stopOk(k)
        invariant lastError.Some? ==>
          && lastError.value < i && !stopOk(lastError.value)
          && forall k :: lastError.value < k < i ==> stopOk(k)
      {
        ghost var next := calls + [Call(order[i], stopOk(i))];
        assert Names(next) == Names(calls) + [order[i]];
        calls := next;
        if !stopOk(i) { lastError := Some(i); }
      }
    }
  }
}
