/** The routing table together with the handle tables, and the actor system's registrations on top of them. */
module Routing {
  import opened Basics
  import opened Handles

  /** An actor object, identified by `serial`, with its id. */
  datatype ActorRef = ActorRef(id: uint32, serial: nat)

  datatype Error =
    | NilActor
    | ActorExists
    | NameExists
    | ActorNotFound
    | ServiceNotFound
    | SourceNotFound
    | NilHandle          // a table pointed to a missing handle
    | ShuttingDown
    | DiscoveryRefused

  datatype Router = Router(actors: map<uint32, ActorRef>, idCounter: uint32, t: Tables)

  function NewRouter(node: uint32): Router {
    Router(map[], 0, NewTables(node))
  }

  /** Adds an actor to the routing table only. */
  function AddActor(r: Router, a: Option<ActorRef>): Result<Router, Error> {
    if a.None? then Err(NilActor)
    else if a.value.id in r.actors then Err(ActorExists)
    else Ok(r.(actors := r.actors[a.value.id := a.value]))
  }

  function RegisterService(r: Router, a: Option<ActorRef>, name: Name): (Router, Result<Handle, Error>) {
    match AddActor(r, a)
    case Err(e) => (r, Err(e))
    case Ok(r') =>
      var (t, got) := Allocate(r.t, a.value.id, name);
      (r'.(t := t),
       match got
       case Granted(h) => Ok(h)
       case Existing(None) => Err(NilHandle)
       case Existing(Some(h)) => Ok(h)
       case NameTaken => Err(NameExists))
  }

  /** Registering a plain actor allocates a nameless handle and forgets it. */
  function Register(r: Router, a: Option<ActorRef>): (Router, Result<(), Error>) {
    var (r', got) := RegisterService(r, a, NO_NAME);
    (r', match got case Ok(_) => Ok(()) case Err(e) => Err(e))
  }

  function RemoveActor(r: Router, id: uint32): Result<Router, Error> {
    if id !in r.actors then Err(ActorNotFound) else Ok(r.(actors := r.actors - {id}))
  }

  function ReleaseIn(r: Router, id: uint32): Router {
    match Release(r.t, id)
    case None => r
    case Some(t) => r.(t := t)
  }

  /** Releases the handle of an actor, if it has one. */
  function ReleaseOf(r: Router, id: uint32): Router {
    match Find(r.t, r.t.byActor, id)
    case Some(Some(h)) => ReleaseIn(r, h.id)
    case _ => r
  }

  function Unregister(r: Router, id: uint32): (Router, Result<(), Error>) {
    var released := ReleaseOf(r, id);
    match RemoveActor(released, id)
    case Err(e) => (released, Err(e))
    case Ok(r') => (r', Ok(()))
  }

  function UnregisterService(r: Router, name: Name): (Router, Result<(), Error>) {
    match Find(r.t, r.t.byName, name)
    case None => (r, Err(ServiceNotFound))
    case Some(None) => (r, Err(NilHandle))
    case Some(Some(h)) =>
      match RemoveActor(r, h.actor)
      case Err(e) => (r, Err(e))
      case Ok(r') => if h.id in r.t.handles then (ReleaseIn(r', h.id), Ok(())) else (r', Err(ServiceNotFound))
  }

  /** Where a message addressed by names goes: the source actor's id, if a source is named, and the target actor. */
  function RouteByName(r: Router, source: Name, target: Name): Result<(Option<uint32>, ActorRef), Error> {
    var from := if source == NO_NAME then Some(None) else
      match Find(r.t, r.t.byName, source) case Some(Some(h)) => Some(Some(h.actor)) case _ => None;
    if from.None? then Err(SourceNotFound) else
      match Find(r.t, r.t.byName, target)
      case None => Err(ServiceNotFound)
      case Some(None) => Err(NilHandle)
      case Some(Some(h)) => if h.actor in r.actors then Ok((from.value, r.actors[h.actor])) else Err(ActorNotFound)
  }

  datatype RouterOp =
    | OpRegister(actor: Option<ActorRef>)
    | OpRegisterService(actor: Option<ActorRef>, name: Name)
    | OpUnregister(id: uint32)
    | OpUnregisterService(name: Name)

  function StepRouter(r: Router, op: RouterOp): Router {
    match op
    case OpRegister(a) => Register(r, a).0
    case OpRegisterService(a, name) => RegisterService(r, a, name).0
    case OpUnregister(id) => Unregister(r, id).0
    case OpUnregisterService(name) => UnregisterService(r, name).0
  }

  function RunRouter(r: Router, ops: seq<RouterOp>): Router
    decreases |ops|
  {
    if ops == [] then r else RunRouter(StepRouter(r, ops[0]), ops[1..])
  }

  // ---- what every run keeps ----

  /** Every handle's actor is in the routing table; the converse need not hold. */
  ghost predicate RouterOk(r: Router) {
    && Inv(r.t)
    && (forall a :: a in r.actors ==> r.actors[a].id == a)
    && (forall id :: id in r.t.handles ==> r.t.handles[id].actor in r.actors)
  }

  lemma RegisterServiceKeeps(r: Router, a: Option<ActorRef>, name: Name)
    requires RouterOk(r) && |RegisterService(r, a, name).0.t.issued| <= TWO_32
    ensures RouterOk(RegisterService(r, a, name).0)
    ensures var got := RegisterService(r, a, name).1; got.Ok? ==>
      && a.Some? && got.value == Handle(r.t.counter, a.value.id, name, r.t.node, true)
      && got.value.id !in r.t.handles && got.value.id !in r.t.issued
    ensures RegisterService(r, a, name).1 != Err(NilHandle)
  {
    if a.Some? && a.value.id !in r.actors {
      assert a.value.id !in r.t.byActor;
      if Allocate(r.t, a.value.id, name).0 != r.t {
        CounterIsFresh(r.t);
        AllocateKeepsInv(r.t, a.value.id, name);
      }
    }
  }

  /** What a registration does to the handle tables: nothing on failure, one fresh entry on success. */
  lemma RegisterServiceEffect(r: Router, a: Option<ActorRef>, name: Name)
    requires RouterOk(r)
    ensures var (r', got) := RegisterService(r, a, name);
      && (got.Err? ==> r'.t == r.t)
      && (got.Ok? ==>
            && r'.t.handles == r.t.handles[got.value.id := got.value] && got.value.name == name
            && (name == NO_NAME ==> r'.t.byName == r.t.byName)
            && (name != NO_NAME ==> name !in r.t.byName && r'.t.byName == r.t.byName[name := got.value.id]))
  {
    if a.Some? && a.value.id !in r.actors {
      assert a.value.id !in r.t.byActor;
    }
  }

  lemma UnregisterKeeps(r: Router, id: uint32)
    requires RouterOk(r)
    ensures RouterOk(Unregister(r, id).0)
    ensures Unregister(r, id).1.Ok? <==> id in r.actors
    ensures id !in Unregister(r, id).0.actors && id !in Unregister(r, id).0.t.byActor
  {
    if id in r.t.byActor { ReleaseKeepsInv(r.t, r.t.byActor[id]); }
  }

  /** Unregistering removes exactly the actor and the handle and name it has, if any. */
  lemma UnregisterEffect(r: Router, id: uint32)
    requires RouterOk(r)
    ensures var r' := Unregister(r, id).0;
      && r'.actors == r.actors - {id}
      && (id !in r.t.byActor ==> r'.t == r.t)
      && (id in r.t.byActor ==>
            var h := r.t.handles[r.t.byActor[id]];
            && r'.t.handles == r.t.handles - {h.id} && r'.t.byActor == r.t.byActor - {id}
            && r'.t.byName == r.t.byName - {h.name})
  {
  }

  /** Registration is refused exactly for no actor, an id in use or a taken name, and otherwise routes the actor. */
  lemma RegisterServiceOutcome(r: Router, a: Option<ActorRef>, name: Name)
    requires RouterOk(r)
    ensures var (r', got) := RegisterService(r, a, name);
      && (got == Err(NilActor) <==> a.None?)
      && (got == Err(ActorExists) <==> a.Some? && a.value.id in r.actors)
      && (got == Err(NameExists) <==> a.Some? && a.value.id !in r.actors && name != NO_NAME && name in r.t.byName)
      && (got.Ok? <==> a.Some? && a.value.id !in r.actors && !(name != NO_NAME && name in r.t.byName))
      && r'.actors == if a.Some? && a.value.id !in r.actors then r.actors[a.value.id := a.value] else r.actors
  {
    if a.Some? && a.value.id !in r.actors { assert a.value.id !in r.t.byActor; }
  }

  /** UnregisterService either finds nothing and changes nothing, or removes actor, handle and name together. */
  lemma UnregisterServiceIsWhole(r: Router, name: Name)
    requires RouterOk(r)
    ensures var (r', got) := UnregisterService(r, name);
      && RouterOk(r')
      && (name !in r.t.byName ==> got == Err(ServiceNotFound) && r' == r)
      && (name in r.t.byName ==>
            var h := r.t.handles[r.t.byName[name]];
            && got == Ok(())
            && r'.actors == r.actors - {h.actor} && r'.t.handles == r.t.handles - {h.id}
            && r'.t.byActor == r.t.byActor - {h.actor} && r'.t.byName == r.t.byName - {name})
  {
    if name in r.t.byName { ReleaseKeepsInv(r.t, r.t.byName[name]); }
  }

  lemma StepKeeps(r: Router, op: RouterOp)
    requires RouterOk(r) && |StepRouter(r, op).t.issued| <= TWO_32
    ensures RouterOk(StepRouter(r, op))
  {
    match op
    case OpRegister(a) => RegisterServiceKeeps(r, a, NO_NAME);
    case OpRegisterService(a, name) => RegisterServiceKeeps(r, a, name);
    case OpUnregister(id) => UnregisterKeeps(r, id);
    case OpUnregisterService(name) => UnregisterServiceIsWhole(r, name);
  }

  lemma StepIssues(r: Router, op: RouterOp)
    ensures |r.t.issued| <= |StepRouter(r, op).t.issued|
  {
  }

  lemma {:induction false} RunIssues(r: Router, ops: seq<RouterOp>)
    ensures |r.t.issued| <= |RunRouter(r, ops).t.issued|
    decreases |ops|
  {
    if ops != [] {
      StepIssues(r, ops[0]);
      RunIssues(StepRouter(r, ops[0]), ops[1..]);
    }
  }

  /** Every run of router operations in which handle ids do not wrap. */
  lemma {:induction false} EveryRouterRun(r: Router, ops: seq<RouterOp>)
    requires RouterOk(r) && |RunRouter(r, ops).t.issued| <= TWO_32
    ensures RouterOk(RunRouter(r, ops))
    decreases |ops|
  {
    if ops != [] {
      RunIssues(StepRouter(r, ops[0]), ops[1..]);
      StepKeeps(r, ops[0]);
      EveryRouterRun(StepRouter(r, ops[0]), ops[1..]);
    }
  }

  /** After any run, a message to a bound name reaches the actor that holds the name. */
  lemma BoundNameIsRoutable(node: uint32, ops: seq<RouterOp>, source: Name, target: Name)
    requires |RunRouter(NewRouter(node), ops).t.issued| <= TWO_32
    requires var t := RunRouter(NewRouter(node), ops).t; target in t.byName && (source == NO_NAME || source in t.byName)
    ensures var r := RunRouter(NewRouter(node), ops);
            var routed := RouteByName(r, source, target);
            && routed.Ok?
            && routed.value.1.id == r.t.handles[r.t.byName[target]].actor
            && r.t.handles[r.t.byName[target]].name == target
            && routed.value.0 == if source == NO_NAME then None else Some(r.t.handles[r.t.byName[source]].actor)
  {
    EveryRouterRun(NewRouter(node), ops);
  }

  /** Otherwise it is refused: for a named source that is not bound, and else for a target that is not. */
  lemma UnboundNameIsRefused(node: uint32, ops: seq<RouterOp>, source: Name, target: Name)
    requires |RunRouter(NewRouter(node), ops).t.issued| <= TWO_32
    ensures var r := RunRouter(NewRouter(node), ops);
            var routed := RouteByName(r, source, target);
            && (routed == Err(SourceNotFound) <==> source != NO_NAME && source !in r.t.byName)
            && (routed == Err(ServiceNotFound) <==> (source == NO_NAME || source in r.t.byName) && target !in r.t.byName)
            && (routed.Err? ==> routed.error.SourceNotFound? || routed.error.ServiceNotFound?)
  {
    EveryRouterRun(NewRouter(node), ops);
  }

  // ---- operations that run between the two halves of another ----

  /** A registration adds the actor first and allocates the handle later. Whatever operations run in between, every
      handle's actor is routed at the end exactly if this actor still is by then, or the name was taken meanwhile. */
  lemma RegisterInTwoSteps(r: Router, a: ActorRef, name: Name, between: seq<RouterOp>)
    requires RouterOk(r) && AddActor(r, Some(a)).Ok?
    requires |RunRouter(AddActor(r, Some(a)).value, between).t.issued| < TWO_32
    ensures var mid := RunRouter(AddActor(r, Some(a)).value, between);
            RouterOk(mid.(t := Allocate(mid.t, a.id, name).0)) <==>
              a.id in mid.actors || (name != NO_NAME && name in mid.t.byName)
  {
    EveryRouterRun(AddActor(r, Some(a)).value, between);
    var mid := RunRouter(AddActor(r, Some(a)).value, between);
    AllocateInRouter(mid, a.id, name);
  }

  lemma AllocateInRouter(r: Router, id: uint32, name: Name)
    requires RouterOk(r) && |r.t.issued| < TWO_32
    ensures RouterOk(r.(t := Allocate(r.t, id, name).0)) <==> id in r.actors || (name != NO_NAME && name in r.t.byName)
  {
    var t := Allocate(r.t, id, name).0;
    CounterIsFresh(r.t);
    AllocateKeepsInv(r.t, id, name);
    if id !in r.actors && !(name != NO_NAME && name in r.t.byName) {
      assert id !in r.t.byActor;
      assert r.t.counter in t.handles && t.handles[r.t.counter].actor == id;
    }
  }

  /** Unregistering releases the handle first and removes the actor later. Whatever operations run in between, every
      handle's actor is routed at the end exactly if this actor was not given a handle again meanwhile. */
  lemma UnregisterInTwoSteps(r: Router, id: uint32, between: seq<RouterOp>)
    requires RouterOk(r) && |RunRouter(ReleaseOf(r, id), between).t.issued| <= TWO_32
    ensures var mid := RunRouter(ReleaseOf(r, id), between);
            RouterOk(mid.(actors := mid.actors - {id})) <==> id !in mid.t.byActor
  {
    if id in r.t.byActor { ReleaseKeepsInv(r.t, r.t.byActor[id]); }
    EveryRouterRun(ReleaseOf(r, id), between);
    var mid := RunRouter(ReleaseOf(r, id), between);
    if id in mid.t.byActor {
      assert mid.t.byActor[id] in mid.t.handles;
    }
  }

  /** The invariant, but for one handle that was given out before. */
  ghost predicate RouterOkBut(r: Router, loose: uint32) {
    && Inv(r.t) && loose in r.t.issued
    && (forall a :: a in r.actors ==> r.actors[a].id == a)
    && (forall id :: id in r.t.handles && id != loose ==> r.t.handles[id].actor in r.actors)
  }

  lemma RegisterKeepsBut(r: Router, loose: uint32, a: Option<ActorRef>, name: Name)
    requires RouterOkBut(r, loose) && |RegisterService(r, a, name).0.t.issued| <= TWO_32
    ensures RouterOkBut(RegisterService(r, a, name).0, loose)
  {
    if a.Some? && a.value.id !in r.actors && Allocate(r.t, a.value.id, name).0 != r.t {
      CounterIsFresh(r.t);
      AllocateKeepsInv(r.t, a.value.id, name);
    }
  }

  lemma StepKeepsBut(r: Router, loose: uint32, op: RouterOp)
    requires RouterOkBut(r, loose) && |StepRouter(r, op).t.issued| <= TWO_32
    ensures RouterOkBut(StepRouter(r, op), loose)
  {
    match op
    case OpRegister(a) => RegisterKeepsBut(r, loose, a, NO_NAME);
    case OpRegisterService(a, name) => RegisterKeepsBut(r, loose, a, name);
    case OpUnregister(id) => UnregisterKeepsBut(r, loose, id);
    case OpUnregisterService(name) => UnregisterServiceKeepsBut(r, loose, name);
  }

  lemma UnregisterKeepsBut(r: Router, loose: uint32, id: uint32)
    requires RouterOkBut(r, loose)
    ensures RouterOkBut(Unregister(r, id).0, loose)
  {
    if id in r.t.byActor { ReleaseKeepsInv(r.t, r.t.byActor[id]); }
  }

  lemma UnregisterServiceKeepsBut(r: Router, loose: uint32, name: Name)
    requires RouterOkBut(r, loose)
    ensures RouterOkBut(UnregisterService(r, name).0, loose)
  {
    if name in r.t.byName { ReleaseKeepsInv(r.t, r.t.byName[name]); }
  }

  lemma {:induction false} RunKeepsBut(r: Router, loose: uint32, ops: seq<RouterOp>)
    requires RouterOkBut(r, loose) && |RunRouter(r, ops).t.issued| <= TWO_32
    ensures RouterOkBut(RunRouter(r, ops), loose)
    decreases |ops|
  {
    if ops != [] {
      RunIssues(StepRouter(r, ops[0]), ops[1..]);
      StepKeepsBut(r, loose, ops[0]);
      RunKeepsBut(StepRouter(r, ops[0]), loose, ops[1..]);
    }
  }

  /** Unregistering by name removes the actor first and releases the handle later. Whatever operations run in between,
      the invariant holds at the end. */
  lemma UnregisterServiceInTwoSteps(r: Router, name: Name, between: seq<RouterOp>)
    requires RouterOk(r) && name in r.t.byName
    requires var h := r.t.handles[r.t.byName[name]]; |RunRouter(r.(actors := r.actors - {h.actor}), between).t.issued| <= TWO_32
    ensures var h := r.t.handles[r.t.byName[name]];
            RouterOk(ReleaseIn(RunRouter(r.(actors := r.actors - {h.actor}), between), h.id))
  {
    var h := r.t.handles[r.t.byName[name]];
    var removed := r.(actors := r.actors - {h.actor});
    RunKeepsBut(removed, h.id, between);
    ReleaseLoose(RunRouter(removed, between), h.id);
  }

  lemma ReleaseLoose(r: Router, loose: uint32)
    requires RouterOkBut(r, loose)
    ensures RouterOk(ReleaseIn(r, loose))
  {
    if loose in r.t.handles { ReleaseKeepsInv(r.t, loose); }
  }

  /** Without anything in between, the two halves are the whole operations. */
  lemma NothingBetween(r: Router, a: ActorRef, name: Name, id: uint32)
    ensures AddActor(r, Some(a)).Ok? ==>
              var mid := RunRouter(AddActor(r, Some(a)).value, []);
              RegisterService(r, Some(a), name).0 == mid.(t := Allocate(mid.t, a.id, name).0)
    ensures var mid := RunRouter(ReleaseOf(r, id), []);
            Unregister(r, id).0 == mid.(actors := mid.actors - {id})
    ensures RouterOk(r) && name in r.t.byName ==>
              var h := r.t.handles[r.t.byName[name]];
              UnregisterService(r, name).0 == ReleaseIn(RunRouter(r.(actors := r.actors - {h.actor}), []), h.id)
  {
  }

  /** The gap is real: unregistering an actor between the two halves of its own registration leaves a bound name that
      cannot be routed. */
  lemma UnregisterBetween(r: Router, a: ActorRef, name: Name)
    requires RouterOk(r) && a.id !in r.actors && name != NO_NAME && name !in r.t.byName && |r.t.issued| < TWO_32
    ensures var mid := RunRouter(AddActor(r, Some(a)).value, [OpUnregister(a.id)]);
            var r' := mid.(t := Allocate(mid.t, a.id, name).0);
            name in r'.t.byName && RouteByName(r', NO_NAME, name) == Err(ActorNotFound)
  {
    var added := AddActor(r, Some(a)).value;
    assert a.id !in r.t.byActor;
    assert RunRouter(added, [OpUnregister(a.id)]) == RunRouter(StepRouter(added, OpUnregister(a.id)), []);
  }
}
