/** The actor system: registration of actors and named services with the router and with service discovery. */
module SystemRuns {
  import opened Basics
  import opened Handles
  import opened Routing

  /** `registry` is the discovery registry, `objects` counts the actor objects created. */
  datatype Sys = Sys(r: Router, registry: map<Name, Handle>, shutdown: bool, objects: nat)

  function NewSys(node: uint32): Sys {
    Sys(NewRouter(node), map[], false, 0)
  }

  /** Draws the next actor id and creates an actor object with it. */
  function Create(s: Sys): (Sys, ActorRef) {
    var id := Succ32(s.r.idCounter);
    (s.(r := s.r.(idCounter := id), objects := s.objects + 1), ActorRef(id, s.objects))
  }

  function NewActor(s: Sys): (Sys, Result<ActorRef, Error>) {
    if s.shutdown then (s, Err(ShuttingDown)) else
      var (s1, a) := Create(s);
      var (r, got) := Register(s1.r, Some(a));
      (s1.(r := r), match got case Ok(_) => Ok(a) case Err(e) => Err(e))
  }

  /** The discovery registry refuses nameless handles and names it already has. */
  predicate Refuses(registry: map<Name, Handle>, h: Handle) {
    h.name == NO_NAME || h.name in registry
  }

  /** Creates a service; on a discovery failure the router registration is taken back by name. */
  function NewService(s: Sys, name: Name): (Sys, Result<Handle, Error>) {
    if s.shutdown then (s, Err(ShuttingDown)) else
      var (s1, a) := Create(s);
      var (r, got) := RegisterService(s1.r, Some(a), name);
      var s2 := s1.(r := r);
      match got
      case Err(e) => (s2, Err(e))
      case Ok(h) =>
        if Refuses(s.registry, h) then (s2.(r := UnregisterService(r, name).0), Err(DiscoveryRefused))
        else (s2.(registry := s.registry[h.name := h]), Ok(h))
  }

  datatype Op = OpNewActor | OpNewService(name: Name) | OpShutdown

  function Step(s: Sys, op: Op): Sys {
    match op
    case OpNewActor => NewActor(s).0
    case OpNewService(name) => NewService(s, name).0
    case OpShutdown => s.(shutdown := true)
  }

  function Run(s: Sys, ops: seq<Op>): Sys
    decreases |ops|
  {
    if ops == [] then s else Run(Step(s, ops[0]), ops[1..])
  }

  /** Discovery and the handle tables bind the same names to the same handles. */
  ghost predicate InStep(s: Sys) {
    && RouterOk(s.r)
    && s.registry.Keys == s.r.t.byName.Keys
    && forall n :: n in s.registry ==> s.registry[n] == s.r.t.handles[s.r.t.byName[n]]
  }

  /** Creating an actor succeeds exactly unless the system is shutting down or the id drawn is in use, which is the only
      thing then refused; it is then routed, has a handle and binds no name. */
  lemma NewActorKeeps(s: Sys)
    requires InStep(s) && |NewActor(s).0.r.t.issued| <= TWO_32
    ensures InStep(NewActor(s).0)
    ensures NewActor(s).1.Ok? <==> !s.shutdown && NextId(s) !in s.r.actors
    ensures NewActor(s).1.Err? ==> NewActor(s).1.error == if s.shutdown then ShuttingDown else ActorExists
    ensures var (s', got) := NewActor(s); got.Ok? ==>
      && got.value == ActorRef(NextId(s), s.objects)
      && s'.r.actors == s.r.actors[got.value.id := got.value] && got.value.id in s'.r.t.byActor
      && s'.r.t.byName == s.r.t.byName && s'.registry == s.registry
  {
    if !s.shutdown {
      ServiceOutcome(s, NO_NAME);
      var (s1, a) := Create(s);
      RegisterServiceKeeps(s1.r, Some(a), NO_NAME);
      RegisterServiceEffect(s1.r, Some(a), NO_NAME);
      var (r, got) := RegisterService(s1.r, Some(a), NO_NAME);
      if got.Ok? { StaysInStep(s, r, s.registry, got.value); }
    }
  }

  /** Adding one fresh handle, and its name to both tables if it has one, keeps discovery in step. */
  lemma StaysInStep(s: Sys, r: Router, registry: map<Name, Handle>, h: Handle)
    requires InStep(s) && h.id !in s.r.t.handles && r.t.handles == s.r.t.handles[h.id := h]
    requires if h.name == NO_NAME then r.t.byName == s.r.t.byName && registry == s.registry
             else r.t.byName == s.r.t.byName[h.name := h.id] && registry == s.registry[h.name := h]
    ensures registry.Keys == r.t.byName.Keys && forall n :: n in registry ==> registry[n] == r.t.handles[r.t.byName[n]]
  {
  }

  /** The id the next actor will get. */
  function NextId(s: Sys): uint32 {
    Succ32(s.r.idCounter)
  }

  /** What the router makes of the new service: refused only for an id in use or a taken name. */
  lemma ServiceOutcome(s: Sys, name: Name)
    requires InStep(s) && !s.shutdown
    ensures var (s1, a) := Create(s);
            var got := RegisterService(s1.r, Some(a), name).1;
            && RouterOk(s1.r)
            && (got.Err? <==> NextId(s) in s.r.actors || (name != NO_NAME && name in s.r.t.byName))
  {
    var (s1, a) := Create(s);
    if a.id !in s.r.actors { assert a.id !in s.r.t.byActor; }
  }

  /** A refused registration leaves the handle tables alone. */
  lemma RefusedService(s: Sys, name: Name)
    requires InStep(s) && !s.shutdown
    requires NextId(s) in s.r.actors || (name != NO_NAME && name in s.r.t.byName)
    ensures var (s', got) := NewService(s, name);
      && InStep(s') && got.Err? && got != Err(DiscoveryRefused) && s'.registry == s.registry && s'.r.t == s.r.t
      && s'.r.actors == if NextId(s) in s.r.actors then s.r.actors
                        else s.r.actors[NextId(s) := ActorRef(NextId(s), s.objects)]
  {
    ServiceOutcome(s, name);
    var (s1, a) := Create(s);
    RegisterServiceEffect(s1.r, Some(a), name);
    RegisterServiceKeeps(s1.r, Some(a), name);
  }

  /** A nameless service is refused by discovery, and the rollback by name finds nothing to take back. */
  lemma NamelessService(s: Sys)
    requires InStep(s) && !s.shutdown && NextId(s) !in s.r.actors && |s.r.t.issued| < TWO_32
    ensures var (s', got) := NewService(s, NO_NAME);
      && InStep(s') && got == Err(DiscoveryRefused) && s'.registry == s.registry
      && s'.r.actors == s.r.actors[NextId(s) := ActorRef(NextId(s), s.objects)]
      && NextId(s) in s'.r.t.byActor
  {
    ServiceOutcome(s, NO_NAME);
    var (s1, a) := Create(s);
    var (r, got) := RegisterService(s1.r, Some(a), NO_NAME);
    RegisterServiceKeeps(s1.r, Some(a), NO_NAME);
    RegisterServiceEffect(s1.r, Some(a), NO_NAME);
    StaysInStep(s, r, s.registry, got.value);
    UnregisterServiceIsWhole(r, NO_NAME);
  }

  /** A new name is bound in both tables to the same handle. */
  lemma NamedService(s: Sys, name: Name)
    requires InStep(s) && !s.shutdown && NextId(s) !in s.r.actors && |s.r.t.issued| < TWO_32
    requires name != NO_NAME && name !in s.r.t.byName
    ensures var (s', got) := NewService(s, name);
      && InStep(s') && got.Ok? && got.value.name == name && got.value.actor == NextId(s)
      && s'.registry == s.registry[name := got.value]
      && s'.r.actors == s.r.actors[NextId(s) := ActorRef(NextId(s), s.objects)]
  {
    ServiceOutcome(s, name);
    var (s1, a) := Create(s);
    var (r, got) := RegisterService(s1.r, Some(a), name);
    RegisterServiceKeeps(s1.r, Some(a), name);
    RegisterServiceEffect(s1.r, Some(a), name);
    StaysInStep(s, r, s.registry[name := got.value], got.value);
  }

  /** Registering allocates an id exactly for a fresh actor id and a free name. */
  lemma ServiceIssues(s: Sys, name: Name)
    requires InStep(s)
    ensures |NewService(s, name).0.r.t.issued| == |s.r.t.issued| +
      if !s.shutdown && NextId(s) !in s.r.actors && (name == NO_NAME || name !in s.r.t.byName) then 1 else 0
  {
    if !s.shutdown {
      ServiceOutcome(s, name);
      var (s1, a) := Create(s);
      RollbackIssuesNothing(RegisterService(s1.r, Some(a), name).0, name);
    }
  }

  /** The rollback branch is taken exactly for the empty name (and a fresh id); a service is created exactly for a free
      name (and a fresh id), and then both tables bind the name to its handle. */
  lemma NewServiceKeeps(s: Sys, name: Name)
    requires InStep(s) && |NewService(s, name).0.r.t.issued| <= TWO_32
    ensures InStep(NewService(s, name).0)
    ensures NewService(s, name).1 == Err(DiscoveryRefused) <==> !s.shutdown && NextId(s) !in s.r.actors && name == NO_NAME
    ensures NewService(s, name).1.Ok? <==>
      !s.shutdown && NextId(s) !in s.r.actors && name != NO_NAME && name !in s.registry
    ensures var (s', got) := NewService(s, name); got.Ok? ==>
      && got.value.name == name && got.value.actor == NextId(s)
      && s'.registry == s.registry[name := got.value]
      && s'.r.actors == s.r.actors[NextId(s) := ActorRef(NextId(s), s.objects)]
  {
    ServiceIssues(s, name);
    if !s.shutdown {
      if NextId(s) in s.r.actors || (name != NO_NAME && name in s.r.t.byName) {
        RefusedService(s, name);
      } else if name == NO_NAME {
        NamelessService(s);
      } else {
        NamedService(s, name);
      }
    }
  }

  /** A failed NewService leaves routing and handle tables unchanged exactly when the system is shutting down or the id
      drawn is already registered. Otherwise the actor stays routed, with a handle exactly when the name is empty. */
  lemma FailedServiceLeaves(s: Sys, name: Name)
    requires InStep(s) && |NewService(s, name).0.r.t.issued| <= TWO_32 && NewService(s, name).1.Err?
    ensures var s' := NewService(s, name).0;
      && s'.registry == s.registry
      && ((s'.r.actors == s.r.actors && s'.r.t == s.r.t) <==> s.shutdown || NextId(s) in s.r.actors)
      && (!(s.shutdown || NextId(s) in s.r.actors) ==>
            && s'.r.actors == s.r.actors[NextId(s) := ActorRef(NextId(s), s.objects)]
            && (NextId(s) in s'.r.t.byActor <==> name == NO_NAME))
  {
    ServiceIssues(s, name);
    NewServiceKeeps(s, name);
    if !s.shutdown {
      if NextId(s) in s.r.actors || name != NO_NAME {
        RefusedService(s, name);
      } else {
        NamelessService(s);
      }
    }
  }

  lemma RollbackIssuesNothing(r: Router, name: Name)
    ensures UnregisterService(r, name).0.t.issued == r.t.issued
  {
  }

  lemma StepKeeps(s: Sys, op: Op)
    requires InStep(s) && |Step(s, op).r.t.issued| <= TWO_32
    ensures InStep(Step(s, op))
  {
    match op
    case OpNewActor => NewActorKeeps(s);
    case OpNewService(name) => NewServiceKeeps(s, name);
    case OpShutdown =>
  }

  lemma StepIssues(s: Sys, op: Op)
    ensures |s.r.t.issued| <= |Step(s, op).r.t.issued|
  {
    if op.OpNewService? && !s.shutdown {
      var (s1, a) := Create(s);
      RollbackIssuesNothing(RegisterService(s1.r, Some(a), op.name).0, op.name);
    }
  }

  lemma {:induction false} RunIssues(s: Sys, ops: seq<Op>)
    ensures |s.r.t.issued| <= |Run(s, ops).r.t.issued|
    decreases |ops|
  {
    if ops != [] {
      StepIssues(s, ops[0]);
      RunIssues(Step(s, ops[0]), ops[1..]);
    }
  }

  /** In every run of the system, failing calls and empty names included, in which handle ids do not wrap. */
  lemma {:induction false} EveryRunStaysInStep(s: Sys, ops: seq<Op>)
    requires InStep(s) && |Run(s, ops).r.t.issued| <= TWO_32
    ensures InStep(Run(s, ops))
    decreases |ops|
  {
    if ops != [] {
      RunIssues(Step(s, ops[0]), ops[1..]);
      StepKeeps(s, ops[0]);
      EveryRunStaysInStep(Step(s, ops[0]), ops[1..]);
    }
  }

  // ---- creation succeeds in every run ----

  /** Ids are drawn in order: those in use are among the first `objects` ones, and as many handles were issued at most. */
  ghost predicate IdsDrawn(s: Sys) {
    && s.r.idCounter == s.objects % TWO_32
    && |s.r.t.issued| <= s.objects
    && (s.objects < TWO_32 ==> forall a :: a in s.r.actors ==> 1 <= a <= s.objects)
  }

  lemma RegisterAddsOne(r: Router, a: ActorRef, name: Name)
    ensures var r' := RegisterService(r, Some(a), name).0;
            r'.idCounter == r.idCounter && |r'.t.issued| <= |r.t.issued| + 1 && r'.actors.Keys <= r.actors.Keys + {a.id}
  {
  }

  lemma RollbackRemoves(r: Router, name: Name)
    ensures var r' := UnregisterService(r, name).0;
            r'.idCounter == r.idCounter && r'.t.issued == r.t.issued && r'.actors.Keys <= r.actors.Keys
  {
  }

  lemma NextInOrder(n: nat)
    ensures Succ32(n % TWO_32) == (n + 1) % TWO_32
  {
  }

  lemma DrawnAfter(s: Sys, s': Sys)
    requires IdsDrawn(s) && s'.r.idCounter == NextId(s) && s'.objects == s.objects + 1
    requires |s'.r.t.issued| <= |s.r.t.issued| + 1 && s'.r.actors.Keys <= s.r.actors.Keys + {NextId(s)}
    ensures IdsDrawn(s')
  {
    NextInOrder(s.objects);
  }

  lemma StepKeepsDrawn(s: Sys, op: Op)
    requires IdsDrawn(s)
    ensures IdsDrawn(Step(s, op)) && s.objects <= Step(s, op).objects <= s.objects + 1
    ensures Step(s, op).shutdown <==> s.shutdown || op == OpShutdown
  {
    if !op.OpShutdown? && !s.shutdown {
      var (s1, a) := Create(s);
      var name := if op.OpNewActor? then NO_NAME else op.name;
      RegisterAddsOne(s1.r, a, name);
      RollbackRemoves(RegisterService(s1.r, Some(a), name).0, name);
      DrawnAfter(s, Step(s, op));
    }
  }

  lemma {:induction false} RunKeepsDrawn(s: Sys, ops: seq<Op>)
    requires IdsDrawn(s)
    ensures IdsDrawn(Run(s, ops)) && Run(s, ops).objects <= s.objects + |ops|
    ensures Run(s, ops).shutdown <==> s.shutdown || OpShutdown in ops
    decreases |ops|
  {
    if ops != [] {
      StepKeepsDrawn(s, ops[0]);
      RunKeepsDrawn(Step(s, ops[0]), ops[1..]);
      assert ops == [ops[0]] + ops[1..];
    }
  }

  /** In every run in which fewer than 2^32 actors were created: NewActor succeeds exactly if nobody shut the system down, and
      NewService exactly if also its name is not empty and not registered. */
  lemma CreationSucceeds(node: uint32, ops: seq<Op>, name: Name)
    requires Run(NewSys(node), ops).objects < TWO_32
    ensures var s := Run(NewSys(node), ops);
      && (NewActor(s).1.Ok? <==> OpShutdown !in ops)
      && (NewService(s, name).1.Ok? <==> OpShutdown !in ops && name != NO_NAME && name !in s.registry)
  {
    var s := Run(NewSys(node), ops);
    RunKeepsDrawn(NewSys(node), ops);
    EveryRunStaysInStep(NewSys(node), ops);
    NextIdIsFree(s);
    StepKeepsDrawn(s, OpNewActor);
    StepKeepsDrawn(s, OpNewService(name));
    NewActorKeeps(s);
    NewServiceKeeps(s, name);
  }

  lemma NextIdIsFree(s: Sys)
    requires IdsDrawn(s) && s.objects < TWO_32
    ensures NextId(s) !in s.r.actors
  {
    NextInOrder(s.objects);
  }

  /** The registry entries whose handle has the given name; the empty name matches all. */
  function Discover(registry: map<Name, Handle>, name: Name): set<Handle> {
    set n | n in registry && (name == NO_NAME || registry[n].name == name) :: registry[n]
  }

  /** After any run, discovering a name finds exactly the handle that the handle tables bind to it. */
  lemma DiscoveryAgreesWithHandles(node: uint32, ops: seq<Op>, name: Name)
    requires |Run(NewSys(node), ops).r.t.issued| <= TWO_32 && name != NO_NAME
    ensures var s := Run(NewSys(node), ops);
      && (name !in s.r.t.byName ==> Discover(s.registry, name) == {})
      && (name in s.r.t.byName ==>
            s.r.t.byName[name] in s.r.t.handles && Discover(s.registry, name) == {s.r.t.handles[s.r.t.byName[name]]})
  {
    EveryRunStaysInStep(NewSys(node), ops);
    var s := Run(NewSys(node), ops);
    assert forall n :: n in s.registry ==> s.registry[n].name == n;
  }
}
