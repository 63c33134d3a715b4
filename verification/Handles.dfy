/** Service handles: three lookup tables that must stay mutually inverse, and 32-bit handle ids. */
module Handles {
  import opened Basics

  /** The empty name means no name. */
  const NO_NAME := Name("")

  datatype Handle = Handle(id: uint32, actor: uint32, name: Name, node: uint32, isLocal: bool)

  /** The handle manager's tables; `issued` lists every id ever given out. */
  datatype Tables = Tables(
    handles: map<uint32, Handle>,
    byActor: map<uint32, uint32>,
    byName: map<Name, uint32>,
    counter: uint32,
    node: uint32,
    issued: seq<uint32>)

  function NewTables(node: uint32): Tables {
    Tables(map[], map[], map[], node * TWO_24 % TWO_32 + 1, node, [])
  }

  /** A lookup that, like the source's, may yield a nil handle. */
  function Find<K>(t: Tables, index: map<K, uint32>, k: K): Option<Option<Handle>> {
    if k !in index then None
    else if index[k] in t.handles then Some(Some(t.handles[index[k]]))
    else Some(None)
  }

  datatype Allocation = Granted(handle: Handle) | Existing(found: Option<Handle>) | NameTaken

  function Allocate(t: Tables, actor: uint32, name: Name): (Tables, Allocation) {
    if actor in t.byActor then (t, Existing(Find(t, t.byActor, actor).value))
    else if name != NO_NAME && name in t.byName then (t, NameTaken)
    else
      var h := Handle(t.counter, actor, name, t.node, true);
      (t.(handles := t.handles[h.id := h], byActor := t.byActor[actor := h.id],
          byName := if name != NO_NAME then t.byName[name := h.id] else t.byName,
          counter := Succ32(t.counter), issued := t.issued + [h.id]),
       Granted(h))
  }

  /** Removes a handle from all tables; None if there is no such handle. */
  function Release(t: Tables, id: uint32): Option<Tables> {
    if id !in t.handles then None else
      var h := t.handles[id];
      Some(t.(handles := t.handles - {id}, byActor := t.byActor - {h.actor},
              byName := if h.name != NO_NAME then t.byName - {h.name} else t.byName))
  }

  // ---- what every run keeps ----

  /** The id given out after `k` earlier ones. */
  function IdAt(node: uint32, k: nat): uint32 {
    (node * TWO_24 % TWO_32 + 1 + k) % TWO_32
  }

  ghost predicate MutuallyInverse(t: Tables) {
    && (forall id :: id in t.handles ==>
          && t.handles[id].id == id
          && t.handles[id].actor in t.byActor && t.byActor[t.handles[id].actor] == id
          && (t.handles[id].name != NO_NAME ==> t.handles[id].name in t.byName && t.byName[t.handles[id].name] == id))
    && (forall a :: a in t.byActor ==> t.byActor[a] in t.handles && t.handles[t.byActor[a]].actor == a)
    && (forall n :: n in t.byName ==> n != NO_NAME && t.byName[n] in t.handles && t.handles[t.byName[n]].name == n)
  }

  ghost predicate IdsOk(t: Tables) {
    && |t.issued| <= TWO_32
    && t.counter == IdAt(t.node, |t.issued|)
    && (forall k :: 0 <= k < |t.issued| ==> t.issued[k] == IdAt(t.node, k))
    && (forall id :: id in t.handles ==> id in t.issued && t.handles[id].node == t.node && t.handles[id].isLocal)
  }

  ghost predicate Inv(t: Tables) {
    MutuallyInverse(t) && IdsOk(t)
  }

  /** Ids repeat only after 2^32 allocations. */
  lemma IdAtInjective(node: uint32, j: nat, k: nat)
    requires j < k < j + TWO_32
    ensures IdAt(node, j) != IdAt(node, k)
  {
  }

  lemma IdAtNext(node: uint32, k: nat)
    ensures IdAt(node, k + 1) == Succ32(IdAt(node, k))
  {
  }

  lemma CounterIsFresh(t: Tables)
    requires IdsOk(t) && |t.issued| < TWO_32
    ensures t.counter !in t.issued && t.counter !in t.handles
  {
    forall k | 0 <= k < |t.issued| ensures t.issued[k] != t.counter {
      IdAtInjective(t.node, k, |t.issued|);
    }
  }

  lemma AllocateKeepsTables(t: Tables, actor: uint32, name: Name)
    requires MutuallyInverse(t) && t.counter !in t.handles
    ensures MutuallyInverse(Allocate(t, actor, name).0)
  {
  }

  lemma AllocateKeepsIds(t: Tables, actor: uint32, name: Name)
    requires IdsOk(t) && |t.issued| < TWO_32
    ensures IdsOk(Allocate(t, actor, name).0)
  {
    IdAtNext(t.node, |t.issued|);
  }

  lemma AllocateKeepsInv(t: Tables, actor: uint32, name: Name)
    requires Inv(t) && |t.issued| < TWO_32
    ensures Inv(Allocate(t, actor, name).0)
  {
    CounterIsFresh(t);
    AllocateKeepsTables(t, actor, name);
    AllocateKeepsIds(t, actor, name);
  }

  /** What an allocation answers: the actor's own handle if it has one, a refusal exactly for a name another actor has, and
      otherwise a handle for this actor and name. */
  lemma AllocateOutcome(t: Tables, actor: uint32, name: Name)
    requires Inv(t) && |t.issued| < TWO_32
    ensures var (t', got) := Allocate(t, actor, name);
      && (got.Existing? <==> actor in t.byActor)
      && (got.Existing? ==> t' == t && got.found.Some? && got.found.value.actor == actor && got.found.value in t.handles.Values)
      && (got.NameTaken? <==> actor !in t.byActor && name in t.byName)
      && (got.NameTaken? ==> t' == t && t.handles[t.byName[name]].name == name && t.handles[t.byName[name]].actor != actor)
      && (got.Granted? ==>
            && got.handle == Handle(t.counter, actor, name, t.node, true) && got.handle.id !in t.issued
            && t'.handles == t.handles[got.handle.id := got.handle])
  {
    CounterIsFresh(t);
  }

  lemma ReleaseKeepsInv(t: Tables, id: uint32)
    requires Inv(t) && id in t.handles
    ensures Inv(Release(t, id).value)
  {
  }

  datatype Op = Alloc(actor: uint32, name: Name) | Free(id: uint32)

  function Step(t: Tables, op: Op): Tables {
    match op
    case Alloc(actor, name) => Allocate(t, actor, name).0
    case Free(id) => if Release(t, id).Some? then Release(t, id).value else t
  }

  function Run(t: Tables, ops: seq<Op>): Tables
    decreases |ops|
  {
    if ops == [] then t else Run(Step(t, ops[0]), ops[1..])
  }

  lemma {:induction false} IssuedGrows(t: Tables, ops: seq<Op>)
    ensures t.issued <= Run(t, ops).issued && Run(t, ops).node == t.node
    decreases |ops|
  {
    if ops != [] { IssuedGrows(Step(t, ops[0]), ops[1..]); }
  }

  lemma {:induction false} RunKeepsInv(t: Tables, ops: seq<Op>)
    requires Inv(t) && |Run(t, ops).issued| <= TWO_32
    ensures Inv(Run(t, ops))
    decreases |ops|
  {
    if ops != [] {
      var t' := Step(t, ops[0]);
      IssuedGrows(t', ops[1..]);
      if ops[0].Alloc? {
        if t'.issued != t.issued { AllocateKeepsInv(t, ops[0].actor, ops[0].name); }
      } else if ops[0].id in t.handles {
        ReleaseKeepsInv(t, ops[0].id);
      }
      RunKeepsInv(t', ops[1..]);
    }
  }

  lemma NewTablesInv(node: uint32)
    ensures Inv(NewTables(node))
  {
  }

  /** In every run of up to 2^32 allocations the three tables stay mutually inverse, and no id is given out twice. */
  lemma TablesStayInverse(node: uint32, ops: seq<Op>)
    requires |Run(NewTables(node), ops).issued| <= TWO_32
    ensures MutuallyInverse(Run(NewTables(node), ops))
    ensures var issued := Run(NewTables(node), ops).issued; forall j, k :: 0 <= j < k < |issued| ==> issued[j] != issued[k]
  {
    NewTablesInv(node);
    RunKeepsInv(NewTables(node), ops);
    var t := Run(NewTables(node), ops);
    forall j, k | 0 <= j < k < |t.issued| ensures t.issued[j] != t.issued[k] {
      IdAtInjective(t.node, j, k);
    }
  }

  /** The k-th id has the node in its top byte exactly while the low 24 bits have not overflowed. */
  lemma TopByteIsNode(node: uint32, k: nat)
    requires node < 256
    ensures IdAt(node, k) / TWO_24 == node <==> (1 + k) % TWO_32 < TWO_24
  {
    var r := (1 + k) % TWO_32;
    assert IdAt(node, k) == (node * TWO_24 + r) % TWO_32;
    TopByteOfSum(node, r);
  }

  lemma TopByteOfSum(node: int, r: int)
    requires 0 <= node < 256 && 0 <= r < TWO_32
    ensures (node * TWO_24 + r) % TWO_32 / TWO_24 == node <==> r < TWO_24
  {
    var q, low := r / TWO_24, r % TWO_24;
    var top := if node + q < 256 then node + q else node + q - 256;
    assert 0 <= q < 256 && (q == 0 <==> r < TWO_24);
    assert (node * TWO_24 + r) % TWO_32 == top * TWO_24 + low;
  }

  /** Managers of different nodes never share an id in their first 2^24 - 1 allocations. */
  lemma NodesNeverShareIds(node1: uint32, ops1: seq<Op>, node2: uint32, ops2: seq<Op>, id: uint32)
    requires node1 < 256 && node2 < 256 && node1 != node2
    requires |Run(NewTables(node1), ops1).issued| < TWO_24 && |Run(NewTables(node2), ops2).issued| < TWO_24
    ensures !(id in Run(NewTables(node1), ops1).issued && id in Run(NewTables(node2), ops2).issued)
  {
    IssuedCarriesNode(node1, ops1, id);
    IssuedCarriesNode(node2, ops2, id);
  }

  lemma IssuedCarriesNode(node: uint32, ops: seq<Op>, id: uint32)
    requires node < 256 && |Run(NewTables(node), ops).issued| < TWO_24
    ensures id in Run(NewTables(node), ops).issued ==> id / TWO_24 == node
  {
    NewTablesInv(node);
    RunKeepsInv(NewTables(node), ops);
    IssuedGrows(NewTables(node), ops);
    if id in Run(NewTables(node), ops).issued { IssuedHasNode(Run(NewTables(node), ops), id); }
  }

  lemma IssuedHasNode(t: Tables, id: uint32)
    requires IdsOk(t) && t.node < 256 && |t.issued| < TWO_24 && id in t.issued
    ensures id / TWO_24 == t.node
  {
    var k :| 0 <= k < |t.issued| && t.issued[k] == id;
    TopByteIsNode(t.node, k);
  }

  /** The handle manager object. */
  class HandleManager {
    var handles: map<uint32, Handle>
    var actorToHandle: map<uint32, uint32>
    var nameToHandle: map<Name, uint32>
    var handleCounter: uint32
    const nodeID: uint32
    ghost var issued: seq<uint32>

    ghost function Abs(): Tables
      reads this
    {
      Tables(handles, actorToHandle, nameToHandle, handleCounter, nodeID, issued)
    }

    /** What every run of up to 2^32 allocations keeps. */
    ghost predicate Valid()
      reads this
    {
      |issued| <= TWO_32 ==> Inv(Abs())
    }

    constructor (nodeID: uint32)
      ensures Valid() && Abs() == NewTables(nodeID)
    {
      this.nodeID := nodeID;
      handles, actorToHandle, nameToHandle := map[], map[], map[];
      handleCounter := nodeID * TWO_24 % TWO_32 + 1;
      issued := [];
    }

    method AllocateHandle(actor: uint32, name: Name) returns (r: Allocation)
      requires Valid()
      modifies this
      ensures Valid() && (Abs(), r) == Allocate(old(Abs()), actor, name)
    {
      if |issued| < TWO_32 { AllocateKeepsInv(Abs(), actor, name); }
      if actor in actorToHandle {
        var id := actorToHandle[actor];
        return Existing(if id in handles then Some(handles[id]) else None);
      }
      if name.text != "" {
        if name in nameToHandle { return NameTaken; }
      }
      var id := handleCounter;
      handleCounter := Succ32(handleCounter);
      var handle := Handle(id, actor, name, nodeID, true);
      handles := handles[id := handle];
      actorToHandle := actorToHandle[actor := id];
      if name.text != "" {
        nameToHandle := nameToHandle[name := id];
      }
      issued := issued + [id];
      return Granted(handle);
    }

    method GetHandleByActor(actor: uint32) returns (r: Option<Option<Handle>>)
      ensures r == Find(Abs(), actorToHandle, actor)
    {
      if actor !in actorToHandle { return None; }
      var id := actorToHandle[actor];
      return Some(if id in handles then Some(handles[id]) else None);
    }

    method GetHandleByName(name: Name) returns (r: Option<Option<Handle>>)
      ensures r == Find(Abs(), nameToHandle, name)
    {
      if name !in nameToHandle { return None; }
      var id := nameToHandle[name];
      return Some(if id in handles then Some(handles[id]) else None);
    }

    method ReleaseHandle(id: uint32) returns (ok: bool)
      requires Valid()
      modifies this
      ensures Valid() && ok == (id in old(handles))
      ensures ok ==> Release(old(Abs()), id) == Some(Abs())
      ensures !ok ==> Abs() == old(Abs())
    {
      if id !in handles { return false; }
      if |issued| <= TWO_32 { ReleaseKeepsInv(Abs(), id); }
      var handle := handles[id];
      handles := handles - {id};
      actorToHandle := actorToHandle - {handle.actor};
      if handle.name.text != "" {
        nameToHandle := nameToHandle - {handle.name};
      }
      return true;
    }
  }
}
