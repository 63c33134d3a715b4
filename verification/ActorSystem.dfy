/** The router and system objects themselves. */
module ActorSystem {
  import opened Basics
  import opened Handles
  import opened Routing
  import opened SystemRuns

  class AdvancedRouter {
    var actors: map<uint32, ActorRef>
    var idCounter: uint32
    const handleManager: HandleManager

    ghost function Abs(): Router
      reads this, handleManager
    {
      Router(actors, idCounter, handleManager.Abs())
    }

    /** What every run keeps while handle ids do not wrap. */
    ghost predicate Valid()
      reads this, handleManager
    {
      handleManager.Valid() && (|handleManager.issued| <= TWO_32 ==> RouterOk(Abs()))
    }

    constructor (nodeID: uint32)
      ensures Valid() && Abs() == NewRouter(nodeID) && fresh(handleManager)
    {
      actors, idCounter := map[], 0;
      handleManager := new HandleManager(nodeID);
    }

    method NextID() returns (id: uint32)
      requires Valid()
      modifies this
      ensures Valid() && Abs() == old(Abs()).(idCounter := id) && id == Succ32(old(idCounter))
    {
      idCounter := Succ32(idCounter);
      id := idCounter;
    }

    method RegisterNamed(actor: Option<ActorRef>, name: Name) returns (r: Result<Handle, Error>)
      requires Valid()
      modifies this, handleManager
      ensures Valid() && (Abs(), r) == RegisterService(old(Abs()), actor, name)
    {
      ghost var r0 := Abs();
      if |RegisterService(r0, actor, name).0.t.issued| <= TWO_32 { RegisterServiceKeeps(r0, actor, name); }
      if actor.None? { return Err(NilActor); }
      var id := actor.value.id;
      if id in actors { return Err(ActorExists); }
      actors := actors[id := actor.value];
      var got := handleManager.AllocateHandle(id, name);
      match got
      case Granted(h) => return Ok(h);
      case Existing(found) => return if found.Some? then Ok(found.value) else Err(NilHandle);
      case NameTaken => return Err(NameExists);
    }

    method Remove(id: uint32) returns (r: Result<(), Error>)
      requires Valid()
      modifies this, handleManager
      ensures Valid() && (Abs(), r) == Unregister(old(Abs()), id)
    {
      if |handleManager.issued| <= TWO_32 { UnregisterKeeps(Abs(), id); }
      var handle := handleManager.GetHandleByActor(id);
      if handle.Some? && handle.value.Some? {
        var _ := handleManager.ReleaseHandle(handle.value.value.id);
      }
      if id !in actors { return Err(ActorNotFound); }
      actors := actors - {id};
      return Ok(());
    }

    method RemoveNamed(name: Name) returns (r: Result<(), Error>)
      requires Valid()
      modifies this, handleManager
      ensures Valid() && (Abs(), r) == UnregisterService(old(Abs()), name)
    {
      if |handleManager.issued| <= TWO_32 { UnregisterServiceIsWhole(Abs(), name); }
      var handle := handleManager.GetHandleByName(name);
      if handle.None? { return Err(ServiceNotFound); }
      if handle.value.None? { return Err(NilHandle); }
      var h := handle.value.value;
      if h.actor !in actors { return Err(ActorNotFound); }
      actors := actors - {h.actor};
      var ok := handleManager.ReleaseHandle(h.id);
      return if ok then Ok(()) else Err(ServiceNotFound);
    }

    /** Resolves the named source and target; the message then carries the source's actor id and goes to the target. */
    method RouteNamed(source: Name, target: Name) returns (r: Result<(Option<uint32>, ActorRef), Error>)
      requires Valid()
      ensures r == RouteByName(Abs(), source, target)
      ensures |handleManager.issued| <= TWO_32 ==> r != Err(NilHandle) && r != Err(ActorNotFound)
    {
      var from: Option<uint32> := None;
      if source != NO_NAME {
        var handle := handleManager.GetHandleByName(source);
        if handle.None? || handle.value.None? { return Err(SourceNotFound); }
        from := Some(handle.value.value.actor);
      }
      var handle := handleManager.GetHandleByName(target);
      if handle.None? { return Err(ServiceNotFound); }
      if handle.value.None? { return Err(NilHandle); }
      var actor := handle.value.value.actor;
      if actor !in actors { return Err(ActorNotFound); }
      return Ok((from, actors[actor]));
    }
  }

  class System {
    const router: AdvancedRouter
    var registry: map<Name, Handle>
    var shutdown: bool
    var objects: nat

    ghost function Abs(): Sys
      reads this, router, router.handleManager
    {
      Sys(router.Abs(), registry, shutdown, objects)
    }

    /** What every run keeps while handle ids do not wrap. */
    ghost predicate Valid()
      reads this, router, router.handleManager
    {
      router.Valid() && (|router.handleManager.issued| <= TWO_32 ==> InStep(Abs()))
    }

    constructor (nodeID: uint32)
      ensures Valid() && Abs() == NewSys(nodeID) && fresh(router) && fresh(router.handleManager)
    {
      router := new AdvancedRouter(nodeID);
      registry, shutdown, objects := map[], false, 0;
    }

    lemma KeepsStep(op: SystemRuns.Op)
      requires Valid()
      ensures |SystemRuns.Step(Abs(), op).r.t.issued| <= TWO_32 ==> InStep(SystemRuns.Step(Abs(), op))
    {
      SystemRuns.StepIssues(Abs(), op);
      if |SystemRuns.Step(Abs(), op).r.t.issued| <= TWO_32 { SystemRuns.StepKeeps(Abs(), op); }
    }

    method AddActor() returns (r: Result<ActorRef, Error>)
      requires Valid()
      modifies this, router, router.handleManager
      ensures Valid() && (Abs(), r) == NewActor(old(Abs()))
    {
      KeepsStep(OpNewActor);
      if shutdown { return Err(ShuttingDown); }
      var id := router.NextID();
      var actor := ActorRef(id, objects);
      objects := objects + 1;
      var got := router.RegisterNamed(Some(actor), NO_NAME);
      return if got.Err? then Err(got.error) else Ok(actor);
    }

    method AddService(name: Name) returns (r: Result<Handle, Error>)
      requires Valid()
      modifies this, router, router.handleManager
      ensures Valid() && (Abs(), r) == NewService(old(Abs()), name)
    {
      KeepsStep(OpNewService(name));
      r := CreateService(name);
    }

    /** Registers with the router and discovery; a refusal by discovery is taken back by name. */
    method CreateService(name: Name) returns (r: Result<Handle, Error>)
      requires router.Valid()
      modifies this, router, router.handleManager
      ensures router.Valid() && (Abs(), r) == NewService(old(Abs()), name)
    {
      if shutdown { return Err(ShuttingDown); }
      var id := router.NextID();
      var actor := ActorRef(id, objects);
      objects := objects + 1;
      var got := router.RegisterNamed(Some(actor), name);
      if got.Err? { return Err(got.error); }
      var handle := got.value;
      if handle.name == NO_NAME || handle.name in registry {
        var _ := router.RemoveNamed(name);
        return Err(DiscoveryRefused);
      }
      registry := registry[handle.name := handle];
      return Ok(handle);
    }
  }
}
