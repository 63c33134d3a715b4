/** What the lifecycle manager does over whole runs: registrations, starts that may fail anywhere and be
    retried, and stops. The class LifecycleManager refines the steps defined here. */
module LifecycleRuns {
  import opened Basics
  import opened Sequences
  import opened DependencyGraph

  /** One call of a service's Start or Stop and whether it succeeded. */
  datatype Call = Call(name: Name, ok: bool)

  /** What one call of the manager did to its services, in order. */
  datatype Op = Registered(name: Name) | StartRun(calls: seq<Call>) | StopRun(calls: seq<Call>)

  datatype State = State(deps: Deps, startOrder: seq<Name>, started: bool, stopping: bool, history: seq<Op>)

  function Names(calls: seq<Call>): (names: seq<Name>)
    ensures |names| == |calls| && forall i :: 0 <= i < |calls| ==> names[i] == calls[i].name
  {
    seq(|calls|, i requires 0 <= i < |calls| => calls[i].name)
  }

  function Reverse<T>(s: seq<T>): (r: seq<T>)
    ensures |r| == |s| && forall i :: 0 <= i < |s| ==> r[i] == s[|s| - 1 - i]
  {
    seq(|s|, i requires 0 <= i < |s| => s[|s| - 1 - i])
  }

  predicate AllOk(calls: seq<Call>) {
    forall i :: 0 <= i < |calls| ==> calls[i].ok
  }

  predicate Outcomes(calls: seq<Call>, ok: nat -> bool) {
    forall i :: 0 <= i < |calls| ==> calls[i].ok == ok(i)
  }

  predicate LastFailed(calls: seq<Call>, name: Name) {
    calls != [] && calls[|calls| - 1] == Call(name, false)
  }

  /** The calls up to a first failure. */
  function OkPart(calls: seq<Call>): seq<Call> {
    if calls != [] && !calls[|calls| - 1].ok then calls[..|calls| - 1] else calls
  }

  /** Every service successfully started since the last stop, in order, with repetitions. */
  function StartedSince(h: seq<Op>): seq<Name> {
    if h == [] then [] else
      var earlier := h[..|h| - 1];
      match h[|h| - 1]
      case Registered(_) => StartedSince(earlier)
      case StartRun(calls) => StartedSince(earlier) + Names(OkPart(calls))
      case StopRun(_) => []
  }

  /** The services registered so far. */
  function RegisteredIn(h: seq<Op>): set<Name> {
    if h == [] then {} else
      RegisteredIn(h[..|h| - 1]) + if h[|h| - 1].Registered? then {h[|h| - 1].name} else {}
  }

  // ---- steps ----

  predicate Init(s: State) {
    s == State(map[], [], false, false, [])
  }

  predicate RegisterStep(s: State, name: Name, ds: seq<Name>, s': State) {
    && name.text != "" && !s.started && name !in s.deps
    && s' == s.(deps := s.deps[name := ds], history := s.history + [Registered(name)])
  }

  /** One Start that got past the order calculation: calls follow `order` up to the first failure. */
  ghost predicate StartStep(s: State, order: seq<Name>, calls: seq<Call>, s': State) {
    && !s.started
    && IsStartOrder(s.deps, order)
    && Names(calls) <= order
    && AllOk(OkPart(calls))
    && (AllOk(calls) ==> |calls| == |order|)
    && s' == s.(startOrder := s.startOrder + Names(OkPart(calls)), started := AllOk(calls),
                history := s.history + [StartRun(calls)])
  }

  predicate StopStep(s: State, calls: seq<Call>, s': State) {
    && s.started && !s.stopping
    && Names(calls) == Reverse(s.startOrder)
    && s' == s.(startOrder := [], started := false, history := s.history + [StopRun(calls)])
  }

  ghost predicate Step(s: State, s': State) {
    || s' == s  // every refused call
    || (exists name, ds :: RegisterStep(s, name, ds, s'))
    || (exists order, calls :: StartStep(s, order, calls, s'))
    || (exists calls :: StopStep(s, calls, s'))
  }

  ghost predicate IsRun(run: seq<State>) {
    && |run| > 0 && Init(run[0])
    && forall i :: 0 <= i < |run| - 1 ==> Step(run[i], run[i + 1])
  }

  // ---- what holds in every reachable state ----

  /** Each service is called only after all its dependencies started successfully in the same Start. */
  ghost predicate DepsStartedFirst(g: Deps, calls: seq<Call>) {
    forall k :: 0 <= k < |calls| ==>
      calls[k].name in g && forall d :: d in g[calls[k].name] ==> Call(d, true) in calls[..k]
  }

  /** A Start that started every registered service, in a start order. */
  ghost predicate CompleteStart(g: Deps, op: Op) {
    op.StartRun? && AllOk(op.calls) && IsStartOrder(g, Names(op.calls))
  }

  /** A Stop directly follows a complete Start and calls back everything started since the last stop, in reverse. */
  ghost predicate GoodStop(h: seq<Op>, t: nat)
    requires t < |h| && h[t].StopRun?
  {
    && t > 0 && h[t - 1].StartRun? && AllOk(h[t - 1].calls) && Distinct(Names(h[t - 1].calls))
    && Elems(Names(h[t - 1].calls)) == RegisteredIn(h[..t])
    && Names(h[t].calls) == Reverse(StartedSince(h[..t]))
  }

  ghost predicate GoodHistory(g: Deps, h: seq<Op>) {
    && (forall t :: 0 <= t < |h| && h[t].StartRun? ==> DepsStartedFirst(g, h[t].calls))
    && (forall t :: 0 <= t < |h| && h[t].StopRun? ==> GoodStop(h, t))
  }

  ghost predicate Inv(s: State) {
    && !s.stopping
    && s.startOrder == StartedSince(s.history)
    && s.deps.Keys == RegisteredIn(s.history)
    && (s.started ==> s.history != [] && CompleteStart(s.deps, s.history[|s.history| - 1]))
    && GoodHistory(s.deps, s.history)
  }

  lemma StartFollowsDeps(g: Deps, order: seq<Name>, calls: seq<Call>)
    requires IsStartOrder(g, order) && Names(calls) <= order && AllOk(OkPart(calls))
    ensures DepsStartedFirst(g, calls)
  {
    forall k, d | 0 <= k < |calls| && d in g[order[k]] ensures Call(d, true) in calls[..k] {
      assert order[k] == Names(calls)[k];
      assert d in order[..k];
      var j :| 0 <= j < k && order[j] == d;
      assert order[j] == Names(calls)[j];
      assert OkPart(calls)[j].ok;
      assert calls[..k][j] == Call(d, true);
    }
    assert forall k :: 0 <= k < |calls| ==> calls[k].name == order[k];
  }

  /** Appending an operation keeps every earlier stop good. */
  lemma GoodStopExtends(h: seq<Op>, op: Op)
    requires forall t :: 0 <= t < |h| && h[t].StopRun? ==> GoodStop(h, t)
    requires op.StopRun? ==> GoodStop(h + [op], |h|)
    ensures forall t :: 0 <= t < |h + [op]| && (h + [op])[t].StopRun? ==> GoodStop(h + [op], t)
  {
    forall t | 0 <= t < |h| && h[t].StopRun? ensures GoodStop(h + [op], t) {
      assert (h + [op])[..t] == h[..t];
    }
  }

  lemma RegisterKeepsInv(s: State, name: Name, ds: seq<Name>, s': State)
    requires Inv(s) && RegisterStep(s, name, ds, s')
    ensures Inv(s')
  {
    assert s'.history[..|s.history|] == s.history;
    GoodStopExtends(s.history, Registered(name));
  }

  lemma StartKeepsInv(s: State, order: seq<Name>, calls: seq<Call>, s': State)
    requires Inv(s) && StartStep(s, order, calls, s')
    ensures Inv(s')
  {
    assert s'.history[..|s.history|] == s.history;
    StartFollowsDeps(s.deps, order, calls);
    GoodStopExtends(s.history, StartRun(calls));
    if AllOk(calls) { assert Names(calls) == order; }
  }

  lemma StopKeepsInv(s: State, calls: seq<Call>, s': State)
    requires Inv(s) && StopStep(s, calls, s')
    ensures Inv(s')
  {
    assert s'.history[..|s.history|] == s.history;
    var order := Names(s.history[|s.history| - 1].calls);
    assert Elems(order) == s.deps.Keys by {
      assert forall i :: 0 <= i < |order| ==> order[i] in s.deps;
    }
    GoodStopExtends(s.history, StopRun(calls));
  }

  lemma StepKeepsInv(s: State, s': State)
    requires Inv(s) && Step(s, s')
    ensures Inv(s')
  {
    if s' != s {
      if name, ds :| RegisterStep(s, name, ds, s') {
        RegisterKeepsInv(s, name, ds, s');
      } else if order, calls :| StartStep(s, order, calls, s') {
        StartKeepsInv(s, order, calls, s');
      } else {
        var calls :| StopStep(s, calls, s');
        StopKeepsInv(s, calls, s');
      }
    }
  }

  /** Whole runs, with starts failing anywhere and being retried. */
  lemma {:induction false} EveryRun(run: seq<State>, i: nat)
    requires IsRun(run) && i < |run|
    ensures Inv(run[i])
  {
    if i > 0 {
      EveryRun(run, i - 1);
      assert Step(run[i - 1], run[i - 1 + 1]);
      StepKeepsInv(run[i - 1], run[i]);
    }
  }

  /** In every run, a Stop begins with the exact reverse of the last start order, which lists every service
      registered by then once; and it stops each service as often as it was started since the previous stop. */
  lemma StopUndoesStarts(run: seq<State>, i: nat, t: nat)
    requires IsRun(run) && i < |run| && t < |run[i].history| && run[i].history[t].StopRun?
    ensures t > 0 && run[i].history[t - 1].StartRun?
    ensures var order := Names(run[i].history[t - 1].calls);
            var stops := Names(run[i].history[t].calls);
            && Distinct(order) && Elems(order) == RegisteredIn(run[i].history[..t])
            && |order| <= |stops| && stops[..|order|] == Reverse(order)
            && multiset(stops) == multiset(StartedSince(run[i].history[..t]))
  {
    assert GoodStop(run[i].history, t) by { EveryRun(run, i); }
    StopReversesStart(run[i].history, t);
  }

  lemma StopReversesStart(h: seq<Op>, t: nat)
    requires t < |h| && h[t].StopRun? && GoodStop(h, t)
    ensures var order, stops := Names(h[t - 1].calls), Names(h[t].calls);
            && |order| <= |stops| && stops[..|order|] == Reverse(order)
            && multiset(stops) == multiset(StartedSince(h[..t]))
  {
    assert h[..t][..t - 1] == h[..t - 1];
    var order := Names(h[t - 1].calls);
    var all := StartedSince(h[..t - 1]) + order;
    assert StartedSince(h[..t]) == all;
    assert Reverse(all)[..|order|] == Reverse(order);
    ReverseKeepsMultiset(all);
  }

  /** In the reverse of a good start, each service comes before its dependencies. */
  lemma ReversedStart(g: Deps, starts: seq<Call>, stops: seq<Name>, k: nat, d: Name)
    requires DepsStartedFirst(g, starts) && stops == Reverse(Names(starts))
    requires k < |stops| && stops[k] in g && d in g[stops[k]]
    ensures d in stops[k + 1..]
  {
    var p := |starts| - 1 - k;
    assert stops[k] == starts[p].name;
    var q :| 0 <= q < p && starts[q] == Call(d, true);
    assert stops[|starts| - 1 - q] == d;
    assert stops[k + 1..][|starts| - 1 - q - (k + 1)] == d;
  }

  /** In every run, the k-th of those first stops comes before the stop of each of its dependencies. */
  lemma DependentsStopFirst(run: seq<State>, i: nat, t: nat, k: nat, d: Name)
    requires IsRun(run) && i < |run| && 0 < t < |run[i].history| && run[i].history[t].StopRun?
    requires run[i].history[t - 1].StartRun? && k < |run[i].history[t - 1].calls|
    requires k < |run[i].history[t].calls|
    requires var s := run[i].history[t].calls[k].name; s in run[i].deps && d in run[i].deps[s]
    ensures var n := |run[i].history[t - 1].calls|;
            n <= |run[i].history[t].calls| && d in Names(run[i].history[t].calls)[..n][k + 1..]
  {
    StopUndoesStarts(run, i, t);
    assert DepsStartedFirst(run[i].deps, run[i].history[t - 1].calls) by { EveryRun(run, i); }
    var starts := run[i].history[t - 1].calls;
    var stops := Names(run[i].history[t].calls)[..|starts|];
    assert stops[k] == run[i].history[t].calls[k].name;
    ReversedStart(run[i].deps, starts, stops, k, d);
  }

  lemma {:induction false} ReverseKeepsMultiset<T>(s: seq<T>)
    ensures multiset(Reverse(s)) == multiset(s)
  {
    if s != [] {
      var n := |s| - 1;
      assert s == s[..n] + [s[n]];
      assert Reverse(s) == [s[n]] + Reverse(s[..n]);
      ReverseKeepsMultiset(s[..n]);
    }
  }

}
