/** Message sessions with one-slot response channels, under a 32-bit session counter that may wrap. */
module Sessions {
  import opened Basics

  type Time = int

  /** A response; None is the nil message. */
  type Response = Option<string>

  /** A session object with its channel, and how often the channel was sent to and closed. */
  datatype Session = Session(
    id: uint32,
    createdAt: Time,
    timeout: Time,
    slot: Option<Response>,
    closed: bool,
    sends: nat,
    closes: nat)

  /** `objects` are all sessions ever created; `sessions` maps live ids to them. */
  datatype Manager = Manager(sessions: map<uint32, nat>, counter: uint32, objects: seq<Session>)

  /** The last two would be a send on or close of a closed channel, and a send that finds the channel full. */
  datatype Outcome = Done | NotFound | Panicked | Full

  function New(): Manager {
    Manager(map[], 0, [])
  }

  function Create(m: Manager, now: Time, timeout: Time): Manager {
    var id := Succ32(m.counter);
    Manager(m.sessions[id := |m.objects|], id, m.objects + [Session(id, now, timeout, None, false, 0, 0)])
  }

  function SentTo(o: Session, r: Response): Session {
    o.(slot := Some(r), sends := o.sends + 1)
  }

  function ClosedOf(o: Session): Session {
    o.(closed := true, closes := o.closes + 1)
  }

  /** The object a live id refers to. */
  predicate Refers(m: Manager, id: uint32) {
    id in m.sessions && m.sessions[id] < |m.objects|
  }

  function Complete(m: Manager, id: uint32, r: Response): (Manager, Outcome) {
    if !Refers(m, id) then (m, NotFound) else
      var k := m.sessions[id];
      var forgotten := m.(sessions := m.sessions - {id});
      if m.objects[k].closed then (m, Panicked)
      else if m.objects[k].slot.Some? then (forgotten, Full)
      else (forgotten.(objects := m.objects[k := SentTo(m.objects[k], r)]), Done)
  }

  function Cleanup(m: Manager, id: uint32): (Manager, Outcome) {
    if !Refers(m, id) then (m, NotFound) else
      var k := m.sessions[id];
      if m.objects[k].closed then (m, Panicked)
      else (m.(sessions := m.sessions - {id}, objects := m.objects[k := ClosedOf(m.objects[k])]), Done)
  }

  predicate Expired(o: Session, now: Time) {
    now - o.createdAt > o.timeout
  }

  /** The ids whose sessions have run out. */
  function ExpiredIds(m: Manager, now: Time): set<uint32> {
    set id | id in m.sessions && m.sessions[id] < |m.objects| && Expired(m.objects[m.sessions[id]], now)
  }

  /** Whether an object is the live session of one of the given ids. */
  predicate IsOneOf(m: Manager, ids: set<uint32>, k: nat)
    requires k < |m.objects|
  {
    m.objects[k].id in ids && m.objects[k].id in m.sessions && m.sessions[m.objects[k].id] == k
  }

  /** Closes and forgets the sessions of the given ids. */
  function CloseAll(m: Manager, ids: set<uint32>): Manager {
    m.(sessions := m.sessions - ids,
       objects := seq(|m.objects|, k requires 0 <= k < |m.objects| =>
                        if IsOneOf(m, ids, k) then ClosedOf(m.objects[k]) else m.objects[k]))
  }

  function Expire(m: Manager, now: Time): Manager {
    CloseAll(m, ExpiredIds(m, now))
  }

  /** A waiter takes the response out of the channel. */
  function Take(m: Manager, k: nat): Manager {
    if k < |m.objects| then m.(objects := m.objects[k := m.objects[k].(slot := None)]) else m
  }

  datatype Op =
    | OpCreate(now: Time, timeout: Time)
    | OpComplete(id: uint32, response: Response)
    | OpCleanup(id: uint32)
    | OpExpire(now: Time)
    | OpTake(k: nat)

  function Step(m: Manager, op: Op): (Manager, Outcome) {
    match op
    case OpCreate(now, timeout) => (Create(m, now, timeout), Done)
    case OpComplete(id, r) => Complete(m, id, r)
    case OpCleanup(id) => Cleanup(m, id)
    case OpExpire(now) => (Expire(m, now), Done)
    case OpTake(k) => (Take(m, k), Done)
  }

  function Run(m: Manager, ops: seq<Op>): Manager
    decreases |ops|
  {
    if ops == [] then m else Run(Step(m, ops[0]).0, ops[1..])
  }

  // ---- what every run keeps ----

  predicate Untouched(o: Session) {
    o.slot.None? && !o.closed && o.sends == 0 && o.closes == 0
  }

  /** A channel saw at most one send or one close, never both, and is closed exactly if it saw a close. */
  predicate AtMostOnce(o: Session) {
    o.sends + o.closes <= 1 && (o.closed <==> o.closes == 1) && (o.slot.Some? ==> o.sends == 1)
  }

  ghost predicate Inv(m: Manager) {
    && (forall k :: 0 <= k < |m.objects| ==> AtMostOnce(m.objects[k]))
    && (forall id :: id in m.sessions ==>
          m.sessions[id] < |m.objects| && m.objects[m.sessions[id]].id == id && Untouched(m.objects[m.sessions[id]]))
  }

  lemma ExpireKeeps(m: Manager, now: Time)
    requires Inv(m)
    ensures Inv(Expire(m, now))
  {
    var m' := Expire(m, now);
    forall k | 0 <= k < |m'.objects| ensures AtMostOnce(m'.objects[k]) {
      assert AtMostOnce(m.objects[k]);
    }
  }

  /** Every step keeps the invariant and never sends on or closes a closed channel, nor finds a channel full. */
  lemma StepKeeps(m: Manager, op: Op)
    requires Inv(m)
    ensures Inv(Step(m, op).0)
    ensures Step(m, op).1.Done? || Step(m, op).1.NotFound?
  {
    if op.OpExpire? { ExpireKeeps(m, op.now); }
  }

  lemma {:induction false} RunKeeps(m: Manager, ops: seq<Op>)
    requires Inv(m)
    ensures Inv(Run(m, ops))
    decreases |ops|
  {
    if ops != [] {
      StepKeeps(m, ops[0]);
      RunKeeps(Step(m, ops[0]).0, ops[1..]);
    }
  }

  /** In every run, however often the counter wraps: each channel ever created saw at most one response or one close,
      and the next operation, whatever it is, meets neither a closed nor a full channel. */
  lemma EveryChannelOnce(ops: seq<Op>, next: Op)
    ensures forall k :: 0 <= k < |Run(New(), ops).objects| ==> AtMostOnce(Run(New(), ops).objects[k])
    ensures var outcome := Step(Run(New(), ops), next).1; outcome.Done? || outcome.NotFound?
  {
    RunKeeps(New(), ops);
    StepKeeps(Run(New(), ops), next);
  }

  /** In every reachable state, completing a live session puts exactly the response into that session's own channel,
      where its waiter finds it, and leaves every other session alone; a second completion finds nothing. */
  lemma ResponseReachesItsSession(ops: seq<Op>, id: uint32, r: Response)
    requires id in Run(New(), ops).sessions
    ensures var m := Run(New(), ops);
            var (m', outcome) := Complete(m, id, r);
            var k := m.sessions[id];
            && outcome.Done? && k < |m.objects| && m.objects[k].id == id
            && m'.objects[k].slot == Some(r) && !m'.objects[k].closed
            && m'.sessions == m.sessions - {id} && |m'.objects| == |m.objects|
            && (forall j :: 0 <= j < |m.objects| && j != k ==> m'.objects[j] == m.objects[j])
            && Complete(m', id, r).1.NotFound? && Cleanup(m', id).1.NotFound?
  {
    RunKeeps(New(), ops);
  }

  /** The object has been sent its response, which has been taken. */
  predicate Spent(m: Manager, k: nat) {
    k < |m.objects| && m.objects[k].slot.None? && m.objects[k].sends == 1 && !m.objects[k].closed
  }

  lemma {:induction false} StaysSpent(m: Manager, ops: seq<Op>, k: nat)
    requires Inv(m) && Spent(m, k)
    ensures Spent(Run(m, ops), k)
    decreases |ops|
  {
    if ops != [] {
      StepKeeps(m, ops[0]);
      SpentStep(m, ops[0], k);
      StaysSpent(Step(m, ops[0]).0, ops[1..], k);
    }
  }

  lemma SpentStep(m: Manager, op: Op, k: nat)
    requires Inv(m) && Spent(m, k)
    ensures Spent(Step(m, op).0, k)
  {
  }

  /** A response is taken once: after a completed session's waiter took it, the channel stays open and empty, whatever
      happens later, also under the same id. */
  lemma ResponseIsTakenOnce(ops: seq<Op>, id: uint32, r: Response, more: seq<Op>)
    requires id in Run(New(), ops).sessions
    ensures var m := Run(New(), ops);
            var k := m.sessions[id];
            var taken := Step(Step(m, OpComplete(id, r)).0, OpTake(k)).0;
            Spent(Run(taken, more), k)
  {
    var m := Run(New(), ops);
    RunKeeps(New(), ops);
    var k := m.sessions[id];
    var completed := Step(m, OpComplete(id, r)).0;
    StepKeeps(m, OpComplete(id, r));
    StepKeeps(completed, OpTake(k));
    StaysSpent(Step(completed, OpTake(k)).0, more, k);
  }

  /** Expiry closes exactly the live sessions that have run out, and forgets exactly those. */
  lemma ExpiryIsExact(ops: seq<Op>, now: Time, k: nat)
    requires k < |Run(New(), ops).objects|
    ensures var m := Run(New(), ops);
            var m' := Expire(m, now);
            var live := m.objects[k].id in m.sessions && m.sessions[m.objects[k].id] == k;
            && |m'.objects| == |m.objects|
            && (m'.objects[k].closed <==> m.objects[k].closed || (live && Expired(m.objects[k], now)))
            && (live ==> (m.objects[k].id in m'.sessions <==> !Expired(m.objects[k], now)))
  {
    RunKeeps(New(), ops);
  }

  lemma StepKeepsFields(m: Manager, op: Op, k: nat)
    requires k < |m.objects|
    ensures var m' := Step(m, op).0;
      && |m.objects| <= |m'.objects|
      && m'.objects[k].id == m.objects[k].id && m'.objects[k].createdAt == m.objects[k].createdAt
      && m'.objects[k].timeout == m.objects[k].timeout
  {
  }

  /** A session keeps its id, its creation time and its timeout. */
  lemma {:induction false} RunKeepsFields(m: Manager, ops: seq<Op>, k: nat)
    requires k < |m.objects|
    ensures var m' := Run(m, ops);
      && |m.objects| <= |m'.objects|
      && m'.objects[k].id == m.objects[k].id && m'.objects[k].createdAt == m.objects[k].createdAt
      && m'.objects[k].timeout == m.objects[k].timeout
    decreases |ops|
  {
    if ops != [] {
      StepKeepsFields(m, ops[0], k);
      RunKeepsFields(Step(m, ops[0]).0, ops[1..], k);
    }
  }

  /** In every run: a session created at `t0` with timeout `d` carries the next id and is live at once; while it is live,
      expiry at `now` leaves it alone exactly if `now - t0 <= d`, and otherwise closes and forgets it. */
  lemma SessionLivesUntilTimeout(ops: seq<Op>, t0: Time, d: Time, more: seq<Op>, now: Time)
    ensures var m0 := Run(New(), ops);
            var created := Step(m0, OpCreate(t0, d)).0;
            var id, k := (m0.counter + 1) % TWO_32, |m0.objects|;
            var m := Run(created, more);
            var m' := Expire(m, now);
      && created.counter == id && id in created.sessions && created.sessions[id] == k
      && k < |m.objects| && k < |m'.objects| && m.objects[k].id == id
      && (id in m.sessions && m.sessions[id] == k ==>
            (id in m'.sessions <==> now - t0 <= d) && (m'.objects[k].closed <==> now - t0 > d))
  {
    var m0 := Run(New(), ops);
    var created := Step(m0, OpCreate(t0, d)).0;
    RunKeeps(New(), ops);
    StepKeeps(m0, OpCreate(t0, d));
    RunKeeps(created, more);
    RunKeepsFields(created, more, |m0.objects|);
  }

  /** In every reachable state, cleaning up a live session closes exactly its own channel, and forgets it. */
  lemma CleanupClosesItsSession(ops: seq<Op>, id: uint32)
    requires id in Run(New(), ops).sessions
    ensures var m := Run(New(), ops);
            var (m', outcome) := Cleanup(m, id);
            var k := m.sessions[id];
            && outcome.Done? && k < |m.objects| && m.objects[k].id == id && |m'.objects| == |m.objects|
            && m'.objects[k].closed && m'.objects[k].slot.None? && m'.sessions == m.sessions - {id}
            && (forall j :: 0 <= j < |m.objects| && j != k ==> m'.objects[j] == m.objects[j])
  {
    RunKeeps(New(), ops);
  }

  /** The session manager object. */
  class SessionManager {
    var sessions: map<uint32, nat>
    var counter: uint32
    var objects: seq<Session>

    ghost function Abs(): Manager
      reads this
    {
      Manager(sessions, counter, objects)
    }

    /** What every run keeps, so no channel is ever found closed or full. */
    ghost predicate Valid()
      reads this
    {
      Inv(Abs())
    }

    constructor ()
      ensures Valid() && Abs() == New()
    {
      sessions, counter, objects := map[], 0, [];
    }

    method CreateSession(now: Time, timeout: Time) returns (k: nat)
      requires Valid()
      modifies this
      ensures Valid() && Abs() == Create(old(Abs()), now, timeout) && k == |old(objects)|
    {
      StepKeeps(Abs(), OpCreate(now, timeout));
      counter := Succ32(counter);
      k := |objects|;
      objects := objects + [Session(counter, now, timeout, None, false, 0, 0)];
      sessions := sessions[counter := k];
    }

    method CompleteSession(id: uint32, r: Response) returns (outcome: Outcome)
      requires Valid()
      modifies this
      ensures Valid() && (Abs(), outcome) == Complete(old(Abs()), id, r)
      ensures outcome == if id in old(sessions) then Done else NotFound
    {
      StepKeeps(Abs(), OpComplete(id, r));
      if id !in sessions { return NotFound; }
      var k := sessions[id];
      if objects[k].closed { return Panicked; }
      sessions := sessions - {id};
      if objects[k].slot.Some? { return Full; }
      objects := objects[k := objects[k].(slot := Some(r), sends := objects[k].sends + 1)];
      return Done;
    }

    method CleanupSession(id: uint32) returns (outcome: Outcome)
      requires Valid()
      modifies this
      ensures Valid() && (Abs(), outcome) == Cleanup(old(Abs()), id)
      ensures outcome == if id in old(sessions) then Done else NotFound
    {
      StepKeeps(Abs(), OpCleanup(id));
      if id !in sessions { return NotFound; }
      var k := sessions[id];
      if objects[k].closed { return Panicked; }
      objects := objects[k := objects[k].(closed := true, closes := objects[k].closes + 1)];
      sessions := sessions - {id};
      return Done;
    }

    /** Closes and forgets one session if it has run out; those of `gone` are closed already. */
    method CloseIfExpired(id: uint32, now: Time, ghost m: Manager, ghost gone: set<uint32>) returns (ghost gone': set<uint32>)
      requires Inv(m) && Abs() == CloseAll(m, gone) && id in m.sessions && id !in gone
      modifies this
      ensures gone' == (if Expired(m.objects[m.sessions[id]], now) then gone + {id} else gone) && Abs() == CloseAll(m, gone')
    {
      gone' := gone;
      CloseOneMore(m, gone, id);
      var k := sessions[id];
      if now - objects[k].createdAt > objects[k].timeout {
        gone' := gone + {id};
        CloseOne(Abs(), id);
        objects := objects[k := objects[k].(closed := true, closes := objects[k].closes + 1)];
        sessions := sessions - {id};
      }
    }

    /** One tick of the cleanup goroutine, over the live sessions in any order. */
    method CleanupExpired(now: Time)
      requires Valid()
      modifies this
      ensures Valid() && Abs() == Expire(old(Abs()), now)
    {
      ghost var m := Abs();
      ExpireKeeps(m, now);
      CloseNone(m);
      var todo := sessions.Keys;
      ghost var gone: set<uint32> := {};
      while todo != {}
        invariant Sweeping(m, now, gone, todo)
        invariant Abs() == CloseAll(m, gone)
        decreases todo
      {
        var id :| id in todo;
        SweepOne(m, now, gone, todo, id);
        gone := CloseIfExpired(id, now, m, gone);
        todo := todo - {id};
      }
      SweptAll(m, now, gone);
    }
  }

  lemma SweptAll(m: Manager, now: Time, gone: set<uint32>)
    requires Sweeping(m, now, gone, {})
    ensures CloseAll(m, gone) == Expire(m, now)
  {
    assert gone + {} == gone;
  }

  lemma CloseOne(m: Manager, id: uint32)
    requires Refers(m, id) && m.objects[m.sessions[id]].id == id
    ensures var k := m.sessions[id];
            CloseAll(m, {id}) == m.(sessions := m.sessions - {id}, objects := m.objects[k := ClosedOf(m.objects[k])])
  {
    var k := m.sessions[id];
    assert CloseAll(m, {id}).objects == m.objects[k := ClosedOf(m.objects[k])];
  }

  /** Of the expired sessions, `gone` are closed and the others are still to be visited. */
  ghost predicate Sweeping(m: Manager, now: Time, gone: set<uint32>, todo: set<uint32>) {
    todo <= m.sessions.Keys && todo !! gone && gone <= ExpiredIds(m, now) <= gone + todo
  }

  lemma SweepOne(m: Manager, now: Time, gone: set<uint32>, todo: set<uint32>, id: uint32)
    requires Inv(m) && Sweeping(m, now, gone, todo) && id in todo
    ensures Sweeping(m, now, if Expired(m.objects[m.sessions[id]], now) then gone + {id} else gone, todo - {id})
  {
  }

  lemma CloseNone(m: Manager)
    ensures CloseAll(m, {}) == m
  {
    assert CloseAll(m, {}).objects == m.objects;
  }

  /** Closing one more live session on top of others leaves all others alone. */
  lemma CloseOneMore(m: Manager, ids: set<uint32>, id: uint32)
    requires Inv(m) && id in m.sessions && id !in ids
    ensures var m' := CloseAll(m, ids);
      && id in m'.sessions && m'.sessions[id] == m.sessions[id] && m'.objects[m.sessions[id]] == m.objects[m.sessions[id]]
      && CloseAll(m', {id}) == CloseAll(m, ids + {id})
  {
    assert CloseAll(CloseAll(m, ids), {id}).objects == CloseAll(m, ids + {id}).objects;
    assert m.sessions - ids - {id} == m.sessions - (ids + {id});
  }
}
