/** Round robin and weighted round robin selection, and their fairness over any window of selections. */
module LoadBalancer {
  import opened Arithmetic
  import opened Basics
  import opened Sequences

  /** A healthy service instance. */
  datatype Service = Service(name: string)

  /** `metrics` holds, per service, the product of success rate, response time factor and ten, cut to an integer. */
  datatype State = State(index: nat, metrics: map<Service, int>, weighted: seq<Service>, weightedIndex: nat)

  /** The metric clamped to 1..100; 1 without metrics. */
  function Weight(metrics: map<Service, int>, s: Service): (w: nat)
    ensures 1 <= w <= 100
  {
    if s !in metrics || metrics[s] < 1 then 1 else if metrics[s] > 100 then 100 else metrics[s]
  }

  /** A weight is the metric where that lies in 1..100, the nearer bound elsewhere, and never falls when the metric rises. */
  lemma WeightFollowsMetric(metrics: map<Service, int>, metrics': map<Service, int>, s: Service)
    ensures s !in metrics ==> Weight(metrics, s) == 1
    ensures s in metrics ==>
      && (Weight(metrics, s) == metrics[s] <==> 1 <= metrics[s] <= 100)
      && (metrics[s] < 1 ==> Weight(metrics, s) == 1) && (metrics[s] > 100 ==> Weight(metrics, s) == 100)
    ensures s in metrics && s in metrics' && metrics[s] <= metrics'[s] ==> Weight(metrics, s) <= Weight(metrics', s)
  {
  }

  function Repeat(s: Service, n: nat): (r: seq<Service>)
    ensures |r| == n
  {
    if n == 0 then [] else Repeat(s, n - 1) + [s]
  }

  lemma {:induction false} RepeatCounts(s: Service, n: nat, x: Service)
    ensures multiset(Repeat(s, n))[x] == if x == s then n else 0
  {
    if n > 0 { RepeatCounts(s, n - 1, x); }
  }

  /** Every service as often as its weight, in order. */
  function Expand(metrics: map<Service, int>, services: seq<Service>): (r: seq<Service>)
    ensures |r| >= |services|
  {
    if services == [] then []
    else Expand(metrics, services[..|services| - 1]) + Repeat(services[|services| - 1], Weight(metrics, services[|services| - 1]))
  }

  /** The first `n` picks of a cyclic walk over `list` from `start`. */
  function Window(list: seq<Service>, start: nat, n: nat): (w: seq<Service>)
    requires |list| > 0
    ensures |w| == n && forall k :: 0 <= k < n ==> w[k] == list[(start + k) % |list|]
  {
    seq(n, k requires 0 <= k < n => list[(start + k) % |list|])
  }

  // ---- a cyclic walk visits every position equally often ----

  /** Steps past the end wrap around once. */
  lemma Wrap(start: nat, k: nat, n: nat)
    requires 0 <= k < n
    ensures (start + k) % n == if start % n + k < n then start % n + k else start % n + k - n
  {
    var q, r := start / n, start % n;
    assert start == q * n + r;
    if r + k < n {
      DivModUnique(start + k, n, q, r + k);
    } else {
      assert (q + 1) * n == q * n + n;
      DivModUnique(start + k, n, q + 1, r + k - n);
    }
  }

  /** A full round from anywhere is a rotation of the list. */
  lemma FullRound(list: seq<Service>, start: nat)
    requires |list| > 0
    ensures multiset(Window(list, start, |list|)) == multiset(list)
  {
    var n, r := |list|, start % |list|;
    var w := Window(list, start, n);
    forall k | 0 <= k < n ensures w[k] == (list[r..] + list[..r])[k] {
      Wrap(start, k, n);
    }
    assert w == list[r..] + list[..r];
    assert list == list[..r] + list[r..];
  }

  /** Complete rounds in a window of `n` picks over `size` services. */
  function Rounds(n: nat, size: nat): nat
    requires size > 0
  {
    if n < size then 0 else 1 + Rounds(n - size, size)
  }

  /** How often a cyclic walk of `n` steps from `start` picks `x`. */
  function Picked(list: seq<Service>, start: nat, n: nat, x: Service): nat
    requires |list| > 0
  {
    if n == 0 then 0 else Picked(list, start, n - 1, x) + if list[(start + (n - 1)) % |list|] == x then 1 else 0
  }

  lemma {:induction false} PickedCounts(list: seq<Service>, start: nat, n: nat, x: Service)
    requires |list| > 0
    ensures Picked(list, start, n, x) == multiset(Window(list, start, n))[x]
  {
    if n > 0 {
      PickedCounts(list, start, n - 1, x);
      assert Window(list, start, n) == Window(list, start, n - 1) + [list[(start + (n - 1)) % |list|]];
    }
  }

  lemma {:induction false} PickedSplits(list: seq<Service>, start: nat, m: nat, n: nat, x: Service)
    requires |list| > 0
    ensures Picked(list, start, m + n, x) == Picked(list, start, m, x) + Picked(list, start + m, n, x)
    decreases n
  {
    if n > 0 {
      PickedSplits(list, start, m, n - 1, x);
      assert start + (m + n - 1) == start + m + (n - 1);
    }
  }

  lemma OncePerRound(services: seq<Service>, start: nat, x: Service)
    requires Distinct(services) && x in services
    ensures Picked(services, start, |services|, x) == 1
  {
    FullRound(services, start);
    DistinctOnce(services, x);
    PickedCounts(services, start, |services|, x);
  }

  /** Over any window each service is picked once per complete round, and at most once more. */
  lemma {:induction false} PicksPerService(services: seq<Service>, start: nat, n: nat, x: Service)
    requires Distinct(services) && x in services
    ensures Rounds(n, |services|) <= Picked(services, start, n, x) <= Rounds(n, |services|) + 1
    decreases n
  {
    var size := |services|;
    OncePerRound(services, start, x);
    if n >= size {
      PickedSplits(services, start, size, n - size, x);
      PicksPerService(services, start + size, n - size, x);
    } else {
      PickedSplits(services, start, n, size - n, x);
    }
  }

  /** Round robin counts over any window differ by at most one. */
  lemma RoundRobinIsFair(services: seq<Service>, start: nat, n: nat, a: Service, b: Service)
    requires Distinct(services) && a in services && b in services
    ensures multiset(Window(services, start, n))[a] <= multiset(Window(services, start, n))[b] + 1
  {
    PicksPerService(services, start, n, a);
    PicksPerService(services, start, n, b);
    PickedCounts(services, start, n, a);
    PickedCounts(services, start, n, b);
  }

  lemma CountConcat(a: seq<Service>, b: seq<Service>, x: Service)
    ensures multiset(a + b)[x] == multiset(a)[x] + multiset(b)[x]
  {
  }

  lemma {:induction false} ExpandOmits(metrics: map<Service, int>, services: seq<Service>, x: Service)
    requires x !in services
    ensures multiset(Expand(metrics, services))[x] == 0
  {
    if services != [] {
      var front, last := services[..|services| - 1], services[|services| - 1];
      ExpandOmits(metrics, front, x);
      RepeatCounts(last, Weight(metrics, last), x);
      CountConcat(Expand(metrics, front), Repeat(last, Weight(metrics, last)), x);
    }
  }

  /** In the expanded list each service occurs its weight times. */
  lemma {:induction false} ExpandCounts(metrics: map<Service, int>, services: seq<Service>, x: Service)
    requires Distinct(services) && x in services
    ensures multiset(Expand(metrics, services))[x] == Weight(metrics, x)
  {
    var front, last := services[..|services| - 1], services[|services| - 1];
    RepeatCounts(last, Weight(metrics, last), x);
    CountConcat(Expand(metrics, front), Repeat(last, Weight(metrics, last)), x);
    if x == last {
      assert x !in front;
      ExpandOmits(metrics, front, x);
    } else {
      ExpandCounts(metrics, front, x);
    }
  }

  // ---- selections ----

  function SelectRoundRobin(lb: State, services: seq<Service>): (State, Option<Service>) {
    if services == [] then (lb, None)
    else (lb.(index := lb.index + 1), Some(services[lb.index % |services|]))
  }

  /** The list used for weighted selection: rebuilt whenever its length differs from the number of services. */
  function WeightedList(lb: State, services: seq<Service>): (list: seq<Service>)
    ensures |list| >= |services|
  {
    if |lb.weighted| != |services| then Expand(lb.metrics, services) else lb.weighted
  }

  /** The entry at which a cyclic walk over a list stands. */
  function Cyclic(list: seq<Service>, index: nat): Service
    requires list != []
  {
    list[index % |list|]
  }

  function SelectWeighted(lb: State, services: seq<Service>): (State, Option<Service>) {
    if services == [] then (lb, None) else
      var list := WeightedList(lb, services);
      (lb.(weighted := list, weightedIndex := lb.weightedIndex + 1), Some(Cyclic(list, lb.weightedIndex)))
  }

  /** `n` selections in a row, weighted or plain. */
  function Picks(lb: State, services: seq<Service>, byWeight: bool, n: nat): seq<Option<Service>>
    decreases n
  {
    if n == 0 then [] else
      var (lb', got) := if byWeight then SelectWeighted(lb, services) else SelectRoundRobin(lb, services);
      [got] + Picks(lb', services, byWeight, n - 1)
  }

  function After(lb: State, services: seq<Service>, byWeight: bool, n: nat): State
    decreases n
  {
    if n == 0 then lb else
      After(if byWeight then SelectWeighted(lb, services).0 else SelectRoundRobin(lb, services).0, services, byWeight, n - 1)
  }

  function Fresh(metrics: map<Service, int>): State {
    State(0, metrics, [], 0)
  }

  function Somes(s: seq<Service>): (r: seq<Option<Service>>)
    ensures |r| == |s| && forall i :: 0 <= i < |s| ==> r[i] == Some(s[i])
  {
    seq(|s|, i requires 0 <= i < |s| => Some(s[i]))
  }

  /** The weighted list is the expansion, or not built yet. */
  predicate Ready(lb: State, services: seq<Service>) {
    lb.weighted == [] || lb.weighted == Expand(lb.metrics, services)
  }

  lemma WindowFront(list: seq<Service>, start: nat, n: nat)
    requires |list| > 0 && n > 0
    ensures Somes(Window(list, start, n)) == [Some(Cyclic(list, start))] + Somes(Window(list, start + 1, n - 1))
  {
  }

  lemma PicksFront(lb: State, services: seq<Service>, n: nat)
    requires n > 0
    ensures var (lb', got) := SelectWeighted(lb, services); Picks(lb, services, true, n) == [got] + Picks(lb', services, true, n - 1)
  {
  }

  /** Weighted selections walk the expansion cyclically, whether the list is rebuilt at each call or kept. */
  lemma {:induction false} WeightedPicksWalk(lb: State, services: seq<Service>, n: nat)
    requires services != [] && Ready(lb, services)
    ensures Picks(lb, services, true, n) == Somes(Window(Expand(lb.metrics, services), lb.weightedIndex, n))
    decreases n
  {
    if n > 0 {
      var list := Expand(lb.metrics, services);
      var lb' := lb.(weighted := list, weightedIndex := lb.weightedIndex + 1);
      PicksFront(lb, services, n);
      assert SelectWeighted(lb, services) == (lb', Some(Cyclic(list, lb.weightedIndex)));
      WeightedPicksWalk(lb', services, n - 1);
      WindowFront(list, lb.weightedIndex, n);
    }
  }

  lemma {:induction false} PlainPicksWalk(lb: State, services: seq<Service>, n: nat)
    requires services != []
    ensures Picks(lb, services, false, n) == Somes(Window(services, lb.index, n))
    decreases n
  {
    if n > 0 {
      PlainPicksWalk(SelectRoundRobin(lb, services).0, services, n - 1);
      WindowFront(services, lb.index, n);
    }
  }

  lemma {:induction false} StaysReady(lb: State, services: seq<Service>, n: nat)
    requires services != [] && Ready(lb, services)
    ensures Ready(After(lb, services, true, n), services) && After(lb, services, true, n).metrics == lb.metrics
    decreases n
  {
    if n > 0 {
      assert WeightedList(lb, services) == Expand(lb.metrics, services);
      StaysReady(SelectWeighted(lb, services).0, services, n - 1);
    }
  }

  lemma {:induction false} SomesCount(s: seq<Service>, x: Service)
    ensures multiset(Somes(s))[Some(x)] == multiset(s)[x]
  {
    if s != [] {
      var n := |s| - 1;
      SomesCount(s[..n], x);
      assert s == s[..n] + [s[n]];
      assert Somes(s) == Somes(s[..n]) + [Some(s[n])];
    }
  }

  /** From a fresh balancer, with metrics and services fixed: after any number of selections, the next
      total-weight selections pick each service exactly its weight times. */
  lemma WeightedIsFair(metrics: map<Service, int>, services: seq<Service>, earlier: nat, x: Service)
    requires Distinct(services) && x in services
    ensures var lb := After(Fresh(metrics), services, true, earlier);
            var total := |Expand(metrics, services)|;
            multiset(Picks(lb, services, true, total))[Some(x)] == Weight(metrics, x)
  {
    StaysReady(Fresh(metrics), services, earlier);
    var lb, list := After(Fresh(metrics), services, true, earlier), Expand(metrics, services);
    WeightedPicksWalk(lb, services, |list|);
    FullRound(list, lb.weightedIndex);
    SomesCount(Window(list, lb.weightedIndex, |list|), x);
    ExpandCounts(metrics, services, x);
  }

  /** From any balancer: over any number of consecutive plain selections, counts differ by at most one. */
  lemma PlainIsFair(lb: State, services: seq<Service>, n: nat, a: Service, b: Service)
    requires Distinct(services) && a in services && b in services
    ensures var picks := multiset(Picks(lb, services, false, n)); picks[Some(a)] <= picks[Some(b)] + 1
  {
    PlainPicksWalk(lb, services, n);
    SomesCount(Window(services, lb.index, n), a);
    SomesCount(Window(services, lb.index, n), b);
    RoundRobinIsFair(services, lb.index, n, a, b);
  }

  // ---- service lists that change between selections ----

  /** One weighted selection: the metrics and the healthy services at the time. */
  datatype Turn = Turn(metrics: map<Service, int>, services: seq<Service>)

  function AfterTurns(lb: State, turns: seq<Turn>): State
    decreases |turns|
  {
    if turns == [] then lb
    else AfterTurns(SelectWeighted(lb.(metrics := turns[0].metrics), turns[0].services).0, turns[1..])
  }

  /** The turn at which the list used in `turn` was built: this one, or the one it was last built at. */
  function BuildOf(lb: State, last: Turn, turn: Turn): Turn {
    if turn.services != [] && |lb.weighted| != |turn.services| then turn else last
  }

  /** The turn at which the list was last built, after some turns. */
  function LastBuild(lb: State, last: Turn, turns: seq<Turn>): Turn
    decreases |turns|
  {
    if turns == [] then last
    else LastBuild(SelectWeighted(lb.(metrics := turns[0].metrics), turns[0].services).0, BuildOf(lb, last, turns[0]), turns[1..])
  }

  /** No list was built yet. */
  const NO_BUILD: Turn := Turn(map[], [])

  predicate BuiltAt(lb: State, last: Turn) {
    lb.weighted == Expand(last.metrics, last.services)
  }

  ghost predicate SameServices(list: seq<Service>, built: seq<Service>) {
    forall x :: x in list <==> x in built
  }

  lemma {:induction false} RepeatHolds(s: Service, n: nat)
    ensures forall x :: x in Repeat(s, n) <==> n > 0 && x == s
  {
    if n > 0 { RepeatHolds(s, n - 1); }
  }

  lemma {:induction false} ExpandHolds(metrics: map<Service, int>, services: seq<Service>)
    ensures SameServices(Expand(metrics, services), services)
  {
    if services != [] {
      var front, last := services[..|services| - 1], services[|services| - 1];
      ExpandHolds(metrics, front);
      RepeatHolds(last, Weight(metrics, last));
      assert services == front + [last];
    }
  }

  lemma UsedList(lb: State, last: Turn, turn: Turn)
    requires BuiltAt(lb, last) && turn.services != []
    ensures var build := BuildOf(lb, last, turn);
            WeightedList(lb.(metrics := turn.metrics), turn.services) == Expand(build.metrics, build.services)
  {
  }

  /** However metrics and services change, the list is the expansion of the services with the metrics of its last build. */
  lemma {:induction false} TurnsKeepBuilt(lb: State, last: Turn, turns: seq<Turn>)
    requires BuiltAt(lb, last)
    ensures BuiltAt(AfterTurns(lb, turns), LastBuild(lb, last, turns))
    decreases |turns|
  {
    if turns != [] {
      var lb' := SelectWeighted(lb.(metrics := turns[0].metrics), turns[0].services).0;
      if turns[0].services != [] { UsedList(lb, last, turns[0]); }
      TurnsKeepBuilt(lb', BuildOf(lb, last, turns[0]), turns[1..]);
    }
  }

  /** How many turns had services to pick from. */
  function Busy(turns: seq<Turn>): nat {
    if turns == [] then 0 else (if turns[0].services != [] then 1 else 0) + Busy(turns[1..])
  }

  /** Only turns with services move the walk on. */
  lemma {:induction false} BusyTurnsAdvance(lb: State, turns: seq<Turn>)
    ensures AfterTurns(lb, turns).weightedIndex == lb.weightedIndex + Busy(turns) && AfterTurns(lb, turns).index == lb.index
    ensures Busy(turns) == 0 ==> AfterTurns(lb, turns).weighted == lb.weighted
    decreases |turns|
  {
    if turns != [] {
      BusyTurnsAdvance(SelectWeighted(lb.(metrics := turns[0].metrics), turns[0].services).0, turns[1..]);
    }
  }

  /** What some turns pick. */
  function TurnPicks(lb: State, turns: seq<Turn>): seq<Option<Service>>
    decreases |turns|
  {
    if turns == [] then [] else
      var (lb', got) := SelectWeighted(lb.(metrics := turns[0].metrics), turns[0].services);
      [got] + TurnPicks(lb', turns[1..])
  }

  /** While the list has as many entries as there are services it is kept, and picks walk it whatever the metrics are. */
  lemma {:induction false} KeptListWalks(lb: State, turns: seq<Turn>)
    requires lb.weighted != [] && forall i :: 0 <= i < |turns| ==> |turns[i].services| == |lb.weighted|
    ensures TurnPicks(lb, turns) == Somes(Window(lb.weighted, lb.weightedIndex, |turns|))
    decreases |turns|
  {
    if turns != [] {
      var lb' := lb.(metrics := turns[0].metrics, weightedIndex := lb.weightedIndex + 1);
      assert SelectWeighted(lb.(metrics := turns[0].metrics), turns[0].services) ==
             (lb', Some(Cyclic(lb.weighted, lb.weightedIndex)));
      KeptListWalks(lb', turns[1..]);
      WindowFront(lb.weighted, lb.weightedIndex, |turns|);
    }
  }

  /** From a fresh balancer, after any turns with metrics and services changing: as long as the list is kept, which is
      while it has as many entries as there are services, a round of picks over it is fair to the metrics of its last
      build, not to the current ones. */
  lemma KeptRoundIsFairToLastBuild(metrics: map<Service, int>, earlier: seq<Turn>, turns: seq<Turn>, x: Service)
    requires var last := LastBuild(Fresh(metrics), NO_BUILD, earlier); Distinct(last.services) && x in last.services
    requires var lb := AfterTurns(Fresh(metrics), earlier);
             |turns| == |lb.weighted| && forall i :: 0 <= i < |turns| ==> |turns[i].services| == |lb.weighted|
    ensures var lb, last := AfterTurns(Fresh(metrics), earlier), LastBuild(Fresh(metrics), NO_BUILD, earlier);
            multiset(TurnPicks(lb, turns))[Some(x)] == Weight(last.metrics, x)
  {
    TurnsKeepBuilt(Fresh(metrics), NO_BUILD, earlier);
    KeptRound(AfterTurns(Fresh(metrics), earlier), LastBuild(Fresh(metrics), NO_BUILD, earlier), turns, x);
  }

  lemma KeptRound(lb: State, last: Turn, turns: seq<Turn>, x: Service)
    requires BuiltAt(lb, last) && Distinct(last.services) && x in last.services
    requires |turns| == |lb.weighted| && forall i :: 0 <= i < |turns| ==> |turns[i].services| == |lb.weighted|
    ensures multiset(TurnPicks(lb, turns))[Some(x)] == Weight(last.metrics, x)
  {
    ExpandCounts(last.metrics, last.services, x);
    KeptListWalks(lb, turns);
    FullRound(lb.weighted, lb.weightedIndex);
    SomesCount(Window(lb.weighted, lb.weightedIndex, |turns|), x);
  }

  /** The pick of a weighted selection over `services`, with the walk at `index`. */
  function PickAt(lb: State, services: seq<Service>, index: nat): Service
    requires services != []
  {
    SelectWeighted(lb.(weightedIndex := index), services).1.value
  }

  /** In every run from a fresh balancer, with metrics and service lists changing at every turn: a pick is one of the
      services the list was last built for. So wherever the walk stands, picks lie in the given list exactly when all
      those services do, in particular whenever the list is rebuilt. */
  lemma PicksAreOfBuiltList(metrics: map<Service, int>, turns: seq<Turn>, turn: Turn)
    requires turn.services != []
    ensures var lb := AfterTurns(Fresh(metrics), turns).(metrics := turn.metrics);
            var built := BuildOf(lb, LastBuild(Fresh(metrics), NO_BUILD, turns), turn).services;
            && (forall index: nat :: PickAt(lb, turn.services, index) in built)
            && ((forall index: nat :: PickAt(lb, turn.services, index) in turn.services) <==>
                (forall x :: x in built ==> x in turn.services))
            && (|lb.weighted| != |turn.services| ==> built == turn.services)
  {
    TurnsKeepBuilt(Fresh(metrics), NO_BUILD, turns);
    var lb, last := AfterTurns(Fresh(metrics), turns), LastBuild(Fresh(metrics), NO_BUILD, turns);
    UsedList(lb, last, turn);
    var build := BuildOf(lb, last, turn);
    ExpandHolds(build.metrics, build.services);
    PicksCoverList(lb.(metrics := turn.metrics), turn.services, build.services);
  }

  lemma PicksCoverList(lb: State, services: seq<Service>, built: seq<Service>)
    requires services != [] && SameServices(WeightedList(lb, services), built)
    ensures forall index: nat :: PickAt(lb, services, index) in built
    ensures (forall index: nat :: PickAt(lb, services, index) in services) <==> (forall x :: x in built ==> x in services)
  {
    forall index: nat ensures PickAt(lb, services, index) in built {
      PickIsInList(lb, services, index);
    }
    forall x | x in built ensures exists index: nat :: PickAt(lb, services, index) == x {
      var index := SomePickIs(lb, services, x);
    }
  }

  lemma PickIsInList(lb: State, services: seq<Service>, index: nat)
    requires services != []
    ensures PickAt(lb, services, index) in WeightedList(lb, services)
  {
  }

  lemma SomePickIs(lb: State, services: seq<Service>, x: Service) returns (index: nat)
    requires services != [] && x in WeightedList(lb, services)
    ensures PickAt(lb, services, index) == x
  {
    var list := WeightedList(lb, services);
    index :| 0 <= index < |list| && list[index] == x;
    DivModUnique(index, |list|, 0, index);
  }

  lemma {:induction false} UnitWeights(services: seq<Service>)
    ensures Expand(map[], services) == services
  {
    if services != [] {
      var front, last := services[..|services| - 1], services[|services| - 1];
      UnitWeights(front);
      assert Repeat(last, 1) == Repeat(last, 0) + [last];
      assert services == front + [last];
    }
  }

  /** A list of the right length is kept although it was built for other services: with unit weights, the second pick
      over `others` is one of `services`. */
  lemma StalePick(services: seq<Service>, others: seq<Service>)
    requires |services| == |others| > 0
    ensures SelectWeighted(AfterTurns(Fresh(map[]), [Turn(map[], services)]), others).1 == Some(Cyclic(services, 1))
  {
    AfterFirstTurn(services);
    assert WeightedList(State(0, map[], services, 1), others) == services;
  }

  lemma AfterFirstTurn(services: seq<Service>)
    requires services != []
    ensures AfterTurns(Fresh(map[]), [Turn(map[], services)]) == State(0, map[], services, 1)
  {
    UnitWeights(services);
    OneTurn(Fresh(map[]), Turn(map[], services));
    assert WeightedList(Fresh(map[]), services) == services;
  }

  lemma OneTurn(lb: State, turn: Turn)
    ensures AfterTurns(lb, [turn]) == SelectWeighted(lb.(metrics := turn.metrics), turn.services).0
  {
    var lb' := SelectWeighted(lb.(metrics := turn.metrics), turn.services).0;
    assert AfterTurns(lb, [turn]) == AfterTurns(lb', []);
  }

  /** The balancer object. */
  class Balancer {
    var roundRobinIndex: nat
    var metrics: map<Service, int>
    var weightedServices: seq<Service>
    var weightedIndex: nat

    ghost function Abs(): State
      reads this
    {
      State(roundRobinIndex, metrics, weightedServices, weightedIndex)
    }

    constructor (metrics: map<Service, int>)
      ensures Abs() == Fresh(metrics)
    {
      roundRobinIndex, this.metrics, weightedServices, weightedIndex := 0, metrics, [], 0;
    }

    method PickRoundRobin(services: seq<Service>) returns (got: Option<Service>)
      modifies this
      ensures (Abs(), got) == SelectRoundRobin(old(Abs()), services)
    {
      if |services| == 0 { return None; }
      got := Some(services[roundRobinIndex % |services|]);
      roundRobinIndex := roundRobinIndex + 1;
    }

    method BuildWeightedServices(services: seq<Service>)
      modifies this`weightedServices
      ensures weightedServices == Expand(metrics, services)
    {
      weightedServices := [];
      for i := 0 to |services|
        invariant weightedServices == Expand(metrics, services[..i])
      {
        var service, weight := services[i], Weight(metrics, services[i]);
        ghost var before, added := weightedServices, [];
        for j := 0 to weight
          invariant added == Repeat(service, j) && weightedServices == before + added
        {
          weightedServices := weightedServices + [service];
          added := added + [service];
        }
        ExpandStep(metrics, services, i);
      }
      assert services[..|services|] == services;
    }

    method PickWeighted(services: seq<Service>) returns (got: Option<Service>)
      modifies this
      ensures (Abs(), got) == SelectWeighted(old(Abs()), services)
    {
      if |services| == 0 { return None; }
      if |weightedServices| != |services| {
        BuildWeightedServices(services);
      }
      // Weights are at least one, so the list is not empty.
      got := Some(weightedServices[weightedIndex % |weightedServices|]);
      weightedIndex := weightedIndex + 1;
    }
  }

  lemma ExpandStep(metrics: map<Service, int>, services: seq<Service>, i: nat)
    requires i < |services|
    ensures Expand(metrics, services[..i + 1]) ==
            Expand(metrics, services[..i]) + Repeat(services[i], Weight(metrics, services[i]))
  {
    assert services[..i + 1][..i] == services[..i];
  }
}
