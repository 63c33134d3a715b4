/** Why things happen to an actor: what made a call end as it did, where its reply came from, when a Stop is refused, and
    which messages were accepted. */
module ActorOutcomes {
  import opened Basics
  import opened ActorProtocol
  import opened ActorRuns
  import opened ActorLimits

  // ---- accepted messages are those of the accepting selects ----

  /** The messages of all selects of a run that accepted one, in order. */
  function Accepts(s: State, es: seq<Event>): seq<Msg>
    requires Exec(s, es).Some?
    decreases |es|
  {
    if es == [] then [] else AcceptedBy(s, es[0]) + Accepts(Apply(s, es[0]).value, es[1..])
  }

  lemma StepAccepts(s: State, e: Event, s': State)
    requires Apply(s, e) == Some(s')
    ensures s'.q.accepted == s.q.accepted + AcceptedBy(s, e)
  {
  }

  /** In every run, what counts as accepted is exactly what the accepting selects of senders and callers put in, in order. */
  lemma {:induction false} AcceptedAreTheAccepts(s: State, es: seq<Event>, t: State)
    requires Exec(s, es) == Some(t)
    ensures t.q.accepted == s.q.accepted + Accepts(s, es)
    decreases |es|
  {
    if es != [] {
      var s' := Apply(s, es[0]).value;
      StepAccepts(s, es[0], s');
      AcceptedAreTheAccepts(s', es[1..], t);
      Reassociate(s.q.accepted, AcceptedBy(s, es[0]), Accepts(s', es[1..]));
    }
  }

  lemma Reassociate(a: seq<Msg>, b: seq<Msg>, c: seq<Msg>)
    ensures a + b + c == a + (b + c)
  {
  }

  // ---- every result of a call has its cause ----

  predicate HasResult(cs: Callers, c: nat) {
    c < |cs.calls| && (cs.calls[c].phase.Leaving? || cs.calls[c].phase.Returned?)
  }

  /** Event `e` in state `u` gave call `c` the result `r`. */
  predicate Causes(e: Event, u: State, c: nat, r: CallResult) {
    && c < |u.cs.calls|
    && match r
       case NotRunning => e == OfCaller(CallCheck(c)) && (u.ctl.state == Stopped || u.ctl.state == Stopping)
       case MailboxFull => e == OfCaller(CallSelect(c, SeeFull)) && |u.q.mailbox| >= u.q.capacity && !u.ctl.cancelled
       case ActorShutDown =>
         (e == OfCaller(CallSelect(c, SeeDone)) || e == OfCaller(CallSeeDone(c))) && u.ctl.cancelled
       case Cancelled => e == OfCaller(CallCancel(c)) && u.cs.calls[c].phase.Waiting?
       case SendPanicked => e == OfCaller(CallSelect(c, SendOnClosed)) && u.q.loop.Closed?
       case Replied(resp) => e == OfCaller(CallReceive(c)) && u.cs.calls[c].slot == Some(resp)
  }

  lemma CallStepCause(s: State, e: CallEvent, s': State, c: nat)
    requires ApplyCall(s, e) == Some(s')
    ensures HasResult(s.cs, c) ==> HasResult(s'.cs, c) && s'.cs.calls[c].phase.result == s.cs.calls[c].phase.result
    ensures HasResult(s'.cs, c) && !HasResult(s.cs, c) ==> Causes(OfCaller(e), s, c, s'.cs.calls[c].phase.result)
  {
  }

  lemma StepCause(s: State, e: Event, s': State, c: nat)
    requires Apply(s, e) == Some(s')
    ensures HasResult(s.cs, c) ==> HasResult(s'.cs, c) && s'.cs.calls[c].phase.result == s.cs.calls[c].phase.result
    ensures HasResult(s'.cs, c) && !HasResult(s.cs, c) ==> Causes(e, s, c, s'.cs.calls[c].phase.result)
  {
    match e
    case OfCaller(caller) => CallStepCause(s, caller, s', c);
    case _ =>
  }

  /** What the rest of a run reaches, the run reaches one event later. */
  lemma Later(s: State, es: seq<Event>, s': State, j: nat, v: State)
    requires es != [] && Apply(s, es[0]) == Some(s') && 0 < j <= |es| && Exec(s', es[1..][..j - 1]) == Some(v)
    ensures Exec(s, es[..j]) == Some(v)
  {
    assert es[..j][1..] == es[1..][..j - 1];
  }

  /** A call keeps its result. */
  lemma {:induction false} ResultStays(s: State, es: seq<Event>, t: State, c: nat)
    requires Exec(s, es) == Some(t) && HasResult(s.cs, c)
    ensures HasResult(t.cs, c) && t.cs.calls[c].phase.result == s.cs.calls[c].phase.result
    decreases |es|
  {
    if es != [] {
      var s' := Apply(s, es[0]).value;
      StepCause(s, es[0], s', c);
      ResultStays(s', es[1..], t, c);
    }
  }

  /** In every run, however many calls it makes: each result of a call was caused by the matching event of that call, in a
      state where its condition held. */
  lemma {:induction false} ResultHasCause(s: State, es: seq<Event>, t: State, c: nat) returns (i: nat, u: State)
    requires Exec(s, es) == Some(t) && HasResult(t.cs, c) && !HasResult(s.cs, c)
    ensures i < |es| && Exec(s, es[..i]) == Some(u) && Causes(es[i], u, c, t.cs.calls[c].phase.result)
    decreases |es|
  {
    var s' := Apply(s, es[0]).value;
    StepCause(s, es[0], s', c);
    if HasResult(s'.cs, c) {
      ResultStays(s', es[1..], t, c);
      i, u := 0, s;
    } else {
      i, u := ResultHasCause(s', es[1..], t, c);
      Later(s, es, s', i + 1, u);
      i := i + 1;
    }
  }

  /** Without a Stop the actor neither stops nor is cancelled. */
  predicate Undisturbed(s: State) {
    s.ctl.stops == [] ==>
      && (s.ctl.state == Idle || s.ctl.state == Running) && !s.ctl.cancelled
      && !s.q.loop.Draining? && !s.q.loop.Closing? && !s.q.loop.Closed?
      && (s.q.loop.Responding? || s.q.loop.Delivering? ==> !s.q.loop.draining)
  }

  lemma StepUndisturbed(s: State, e: Event, s': State)
    requires Undisturbed(s) && Apply(s, e) == Some(s')
    ensures Undisturbed(s') && (s'.ctl.stops == [] ==> s.ctl.stops == [])
  {
    match e
    case OfLoop(step) => LoopUndisturbed(s, step, s');
    case OfStopper(stopper) => StopDisturbs(s, stopper, s');
    case OfSender(_) => assert s'.ctl == s.ctl && s'.q.loop == s.q.loop;
    case OfCaller(_) => assert s'.ctl == s.ctl && s'.q.loop == s.q.loop;
  }

  lemma LoopUndisturbed(s: State, e: LoopEvent, s': State)
    requires Undisturbed(s) && ApplyLoop(s, e) == Some(s')
    ensures Undisturbed(s') && s'.ctl.stops == s.ctl.stops
  {
  }

  lemma StopDisturbs(s: State, e: StopEvent, s': State)
    requires ApplyStop(s, e) == Some(s')
    ensures s'.ctl.stops != []
  {
  }

  lemma {:induction false} RunUndisturbed(s: State, es: seq<Event>, t: State)
    requires Undisturbed(s) && Exec(s, es) == Some(t)
    ensures Undisturbed(t) && (t.ctl.stops == [] ==> s.ctl.stops == [])
    decreases |es|
  {
    if es != [] {
      var s' := Apply(s, es[0]).value;
      StepUndisturbed(s, es[0], s');
      RunUndisturbed(s', es[1..], t);
    }
  }

  /** In every run in which no Stop was begun, no call is refused as not running or shutting down, nor meets a closed mailbox;
      and one refused as full was so because the mailbox held exactly its capacity. */
  lemma RefusalNeedsStop(capacity: nat, es: seq<Event>, t: State, c: nat) returns (i: nat, u: State)
    requires Exec(Init(capacity), es) == Some(t) && HasResult(t.cs, c)
    ensures i < |es| && Exec(Init(capacity), es[..i]) == Some(u) && Causes(es[i], u, c, t.cs.calls[c].phase.result)
    ensures t.ctl.stops == [] ==>
      var r := t.cs.calls[c].phase.result; !r.NotRunning? && !r.ActorShutDown? && !r.SendPanicked?
    ensures t.cs.calls[c].phase.result.MailboxFull? ==> |u.q.mailbox| == capacity
  {
    var s := Init(capacity);
    i, u := ResultHasCause(s, es, t, c);
    RunUndisturbed(s, es[..i], u);
    RestOfRun(s, es, i, t, u);
    RunUndisturbed(u, es[i..], t);
    MailboxConserves(capacity, es[..i], u);
    EveryRunKeepsQueue(s, es[..i], u);
  }

  lemma RestOfRun(s: State, es: seq<Event>, i: nat, t: State, u: State)
    requires i <= |es| && Exec(s, es) == Some(t) && Exec(s, es[..i]) == Some(u)
    ensures Exec(u, es[i..]) == Some(t)
  {
    var begun, rest := es[..i], es[i..];
    assert begun + rest == es;
    ExecConcat(s, begun, u, rest);
  }

  // ---- replies are what the handler returned ----

  /** The handler returned `reply` for the message of call `c`. */
  predicate HandlerReturned(e: Event, u: State, c: nat, reply: Reply) {
    e == OfLoop(HandlerReturns(reply)) && u.q.loop.Handling? && u.q.loop.msg.CallMsg? && u.q.loop.msg.call == c
  }

  lemma StepReplies(s: State, e: Event, s': State, c: nat)
    requires Apply(s, e) == Some(s') && c in s'.cs.replies
    ensures (c in s.cs.replies && s'.cs.replies[c] == s.cs.replies[c]) || HandlerReturned(e, s, c, s'.cs.replies[c])
  {
  }

  /** In every run, the reply recorded for a call is what the handler returned for its message at some event. */
  lemma {:induction false} ReplyHasCause(s: State, es: seq<Event>, t: State, c: nat) returns (found: bool, i: nat, u: State)
    requires Exec(s, es) == Some(t) && c in t.cs.replies
    ensures !found ==> c in s.cs.replies && t.cs.replies[c] == s.cs.replies[c]
    ensures found ==> i < |es| && Exec(s, es[..i]) == Some(u) && HandlerReturned(es[i], u, c, t.cs.replies[c])
    decreases |es|
  {
    if es == [] {
      found, i, u := false, 0, s;
    } else {
      var s' := Apply(s, es[0]).value;
      found, i, u := ReplyHasCause(s', es[1..], t, c);
      if found {
        Later(s, es, s', i + 1, u);
        i := i + 1;
      } else {
        StepReplies(s, es[0], s', c);
        found, i, u := !(c in s.cs.replies && s'.cs.replies[c] == s.cs.replies[c]), 0, s;
      }
    }
  }

  /** In every run with fewer than 2^32 calls: a call whose message was processed and that returned a reply returned
      exactly what the handler returned for that message. */
  lemma CallGetsHandlersReply(capacity: nat, es: seq<Event>, t: State, c: nat, r: Response) returns (i: nat, u: State)
    requires Exec(Init(capacity), es) == Some(t) && |t.cs.calls| < TWO_32
    requires c < |t.cs.calls| && t.cs.calls[c].phase == Returned(Replied(r)) && MsgOf(t.cs, c) in t.q.processed
    ensures i < |es| && Exec(Init(capacity), es[..i]) == Some(u) && HandlerReturned(es[i], u, c, r.reply)
  {
    CallGetsOwnReply(capacity, es, t, c, r);
    var found;
    found, i, u := ReplyHasCause(Init(capacity), es, t, c);
  }

  // ---- when a Stop is refused ----

  predicate Claimed(p: StopPhase) {
    p.Cancelling? || p.AwaitingLoop? || p.StopReturned?
  }

  /** What one event does to the k-th Stop. */
  lemma StopStep(s: State, e: Event, s': State, k: nat)
    requires Apply(s, e) == Some(s') && k < |s'.ctl.stops|
    ensures k >= |s.ctl.stops| ==>
      && e == OfStopper(StopBegin) && k == |s.ctl.stops|
      && s'.ctl.stops[k] == (if s.ctl.state == Idle then Cancelling else SecondTry)
      && (s.ctl.state == Idle ==> s'.ctl.state == Stopping)
    ensures k < |s.ctl.stops| && s.ctl.stops[k].SecondTry? && s'.ctl.stops[k] != s.ctl.stops[k] ==>
      && e == OfStopper(StopRetry(k))
      && s'.ctl.stops[k] == (if s.ctl.state == Running then Cancelling else StopRefused)
      && (s.ctl.state == Running ==> s'.ctl.state == Stopping)
    ensures k < |s.ctl.stops| && Claimed(s.ctl.stops[k]) ==> Claimed(s'.ctl.stops[k])
    ensures k < |s.ctl.stops| && s.ctl.stops[k].StopRefused? ==> s'.ctl.stops[k].StopRefused?
  {
  }

  /** The actor was not idle at the first attempt of the k-th Stop, nor running at the second. */
  ghost predicate Missed(s: State, es: seq<Event>, k: nat, i: nat, u: State, j: nat, v: State) {
    && i < j < |es| && Exec(s, es[..i]) == Some(u) && Exec(s, es[..j]) == Some(v)
    && es[i] == OfStopper(StopBegin) && |u.ctl.stops| == k && u.ctl.state != Idle
    && es[j] == OfStopper(StopRetry(k)) && v.ctl.state != Running
  }

  /** In every run a Stop is refused only if it missed the actor both times: not idle at the first compare-and-swap, and
      not running at the second. */
  lemma {:induction false} RefusedStopMissed(s: State, es: seq<Event>, t: State, k: nat)
    returns (i: nat, u: State, j: nat, v: State)
    requires Exec(s, es) == Some(t) && |s.ctl.stops| <= k < |t.ctl.stops| && t.ctl.stops[k].StopRefused?
    ensures Missed(s, es, k, i, u, j, v)
    decreases |es|
  {
    var s' := Apply(s, es[0]).value;
    if k < |s'.ctl.stops| {
      i, u := 0, s;
      j, v := RefusedAfterBegin(s, es, s', t, k);
    } else {
      i, u, j, v := RefusedStopMissed(s', es[1..], t, k);
      MissedLater(s, es, s', k, i, u, j, v);
      i, j := i + 1, j + 1;
    }
  }

  lemma RefusedAfterBegin(s: State, es: seq<Event>, s': State, t: State, k: nat) returns (j: nat, v: State)
    requires es != [] && Apply(s, es[0]) == Some(s') && Exec(s', es[1..]) == Some(t)
    requires |s.ctl.stops| <= k < |s'.ctl.stops| && k < |t.ctl.stops| && t.ctl.stops[k].StopRefused?
    ensures Missed(s, es, k, 0, s, j, v)
  {
    StopStep(s, es[0], s', k);
    if Claimed(s'.ctl.stops[k]) { ClaimStays(s', es[1..], t, k); }
    j, v := RefusedLater(s', es[1..], t, k);
    Later(s, es, s', j + 1, v);
    j := j + 1;
  }

  lemma MissedLater(s: State, es: seq<Event>, s': State, k: nat, i: nat, u: State, j: nat, v: State)
    requires es != [] && Apply(s, es[0]) == Some(s') && Missed(s', es[1..], k, i, u, j, v)
    ensures Missed(s, es, k, i + 1, u, j + 1, v)
  {
    Later(s, es, s', i + 1, u);
    Later(s, es, s', j + 1, v);
  }

  lemma {:induction false} ClaimStays(s: State, es: seq<Event>, t: State, k: nat)
    requires Exec(s, es) == Some(t) && k < |s.ctl.stops| && Claimed(s.ctl.stops[k])
    ensures k < |t.ctl.stops| && Claimed(t.ctl.stops[k])
    decreases |es|
  {
    if es != [] {
      var s' := Apply(s, es[0]).value;
      StopStep(s, es[0], s', k);
      ClaimStays(s', es[1..], t, k);
    }
  }

  lemma {:induction false} RefusedLater(s: State, es: seq<Event>, t: State, k: nat) returns (j: nat, v: State)
    requires Exec(s, es) == Some(t) && k < |s.ctl.stops| && s.ctl.stops[k].SecondTry?
    requires k < |t.ctl.stops| && t.ctl.stops[k].StopRefused?
    ensures j < |es| && Exec(s, es[..j]) == Some(v) && es[j] == OfStopper(StopRetry(k)) && v.ctl.state != Running
    decreases |es|
  {
    var s' := Apply(s, es[0]).value;
    StopStep(s, es[0], s', k);
    if s'.ctl.stops[k].SecondTry? {
      j, v := RefusedLater(s', es[1..], t, k);
      Later(s, es, s', j + 1, v);
      j := j + 1;
    } else {
      if Claimed(s'.ctl.stops[k]) { ClaimStays(s', es[1..], t, k); }
      j, v := 0, s;
    }
  }

  /** And every Stop that missed the actor both times is refused. */
  lemma MissedStopIsRefused(s: State, es: seq<Event>, t: State, k: nat, i: nat, u: State, j: nat, v: State)
    requires Exec(s, es) == Some(t) && Missed(s, es, k, i, u, j, v)
    ensures k < |t.ctl.stops| && t.ctl.stops[k].StopRefused?
  {
    RestOfRun(s, es, j, t, v);
    var v' := Apply(v, es[j]).value;
    StopStep(v, es[j], v', k);
    assert es[j..][1..] == es[j + 1..];
    RefusalStays(v', es[j + 1..], t, k);
  }

  lemma {:induction false} RefusalStays(s: State, es: seq<Event>, t: State, k: nat)
    requires Exec(s, es) == Some(t) && k < |s.ctl.stops| && s.ctl.stops[k].StopRefused?
    ensures k < |t.ctl.stops| && t.ctl.stops[k].StopRefused?
    decreases |es|
  {
    if es != [] {
      var s' := Apply(s, es[0]).value;
      StopStep(s, es[0], s', k);
      RefusalStays(s', es[1..], t, k);
    }
  }

  /** That can happen to an actor nobody is stopping: it finishes its message between the two attempts. The Stop is refused,
      and the actor is idle and goes on. */
  lemma IdleActorCanRefuseStop(capacity: nat, payload: int) returns (es: seq<Event>, t: State)
    requires capacity > 0
    ensures Exec(Init(capacity), es) == Some(t)
    ensures t.ctl == Control(Idle, false, [StopRefused]) && t.q.loop.Receiving?
  {
    es, t := BusyWithOne(capacity, payload);
    es, t := MissTheActor(Init(capacity), es, t);
  }

  /** A run that leaves the actor handling its first message. */
  lemma BusyWithOne(capacity: nat, payload: int) returns (es: seq<Event>, t: State)
    requires capacity > 0
    ensures Exec(Init(capacity), es) == Some(t)
    ensures t.ctl == Control(Running, false, []) && t.sending == multiset{} && t.q.loop == Handling(Plain(payload))
  {
    var s := Init(capacity);
    es, t := Do(s, [], s, OfLoop(StartLoop));
    es, t := QueueOne(s, es, t, payload);
    es, t := Do(s, es, t, OfLoop(LoopReceive));
    es, t := Do(s, es, t, OfLoop(ProcessBegin));
  }

  lemma QueueOne(s: State, es: seq<Event>, t: State, payload: int) returns (es': seq<Event>, t': State)
    requires Exec(s, es) == Some(t) && t.ctl == Control(Idle, false, []) && t.sending == multiset{}
    requires t.q.loop.Receiving? && t.q.mailbox == [] && t.q.capacity > 0
    ensures Exec(s, es') == Some(t') && t'.ctl == t.ctl && t'.sending == multiset{}
    ensures t'.q.loop.Receiving? && t'.q.mailbox == [Plain(payload)]
  {
    es', t' := Do(s, es, t, OfSender(SendCheck(payload)));
    es', t' := Do(s, es', t', OfSender(SendSelect(payload, Accept)));
  }

  lemma MissTheActor(s: State, es: seq<Event>, t: State) returns (es': seq<Event>, t': State)
    requires Exec(s, es) == Some(t) && t.ctl == Control(Running, false, []) && t.q.loop.Handling? && t.q.loop.msg.Plain?
    ensures Exec(s, es') == Some(t') && t'.ctl == Control(Idle, false, [StopRefused]) && t'.q.loop.Receiving?
  {
    es', t' := Do(s, es, t, OfStopper(StopBegin));
    assert t'.ctl.stops == [SecondTry];
    es', t' := Do(s, es', t', OfLoop(HandlerReturns(Success)));
    es', t' := Do(s, es', t', OfLoop(ProcessEnd));
    es', t' := Do(s, es', t', OfStopper(StopRetry(0)));
  }

  // ---- a call that gets through ----

  /** In every reachable state with an idle loop, an empty mailbox and no Stop, with fewer than 2^32 calls: a call can be
      made, and if nothing interferes it returns exactly what the handler returns for it. */
  lemma CallCompletes(s: State, es: seq<Event>, t: State, payload: int, reply: Reply) returns (es': seq<Event>, t': State)
    requires Exec(s, es) == Some(t) && Inv(t) && |t.cs.calls| + 1 < TWO_32 && !reply.ShuttingDown?
    requires t.q.loop.Receiving? && t.q.mailbox == [] && t.q.capacity > 0 && !NotRunningNow(t.ctl)
    ensures Exec(s, es') == Some(t')
    ensures var c := |t.cs.calls|;
            c < |t'.cs.calls| && t'.cs.calls[c].phase == Returned(Replied(Response(c, c + 1, reply)))
  {
    var c := |t.cs.calls|;
    es', t' := CallIsQueued(s, es, t, payload);
    es', t' := CallIsHandled(s, es', t', c, payload, reply);
    es', t' := CallIsAnswered(s, es', t', c, payload, reply);
  }

  lemma CallIsQueued(s: State, es: seq<Event>, t: State, payload: int) returns (es': seq<Event>, t': State)
    requires Exec(s, es) == Some(t) && Inv(t) && |t.cs.calls| + 1 < TWO_32
    requires t.q.loop.Receiving? && t.q.mailbox == [] && t.q.capacity > 0 && !NotRunningNow(t.ctl)
    ensures Exec(s, es') == Some(t')
    ensures var c := |t.cs.calls|;
      && t'.q.loop.Receiving? && t'.q.mailbox == [CallMsg(c, c + 1, payload)] && |t'.cs.calls| == c + 1
      && t'.cs.calls[c].phase.Waiting? && t'.cs.calls[c].slot.None? && t'.cs.calls[c].session == c + 1
      && c + 1 in t'.cs.pending && t'.cs.pending[c + 1] == c
  {
    var c := |t.cs.calls|;
    es', t' := Do(s, es, t, OfCaller(CallBegin(payload)));
    es', t' := Do(s, es', t', OfCaller(CallCheck(c)));
    es', t' := Do(s, es', t', OfCaller(CallSelect(c, Accept)));
  }

  lemma CallIsHandled(s: State, es: seq<Event>, t: State, c: nat, payload: int, reply: Reply)
    returns (es': seq<Event>, t': State)
    requires Exec(s, es) == Some(t) && c + 1 < TWO_32 && !reply.ShuttingDown?
    requires t.q.loop.Receiving? && t.q.mailbox == [CallMsg(c, c + 1, payload)]
    ensures Exec(s, es') == Some(t') && t'.cs == t.cs.(replies := t'.cs.replies)
    ensures t'.q.loop == Responding(CallMsg(c, c + 1, payload), reply, false)
  {
    es', t' := Do(s, es, t, OfLoop(LoopReceive));
    es', t' := Do(s, es', t', OfLoop(ProcessBegin));
    es', t' := Do(s, es', t', OfLoop(HandlerReturns(reply)));
  }

  lemma CallIsAnswered(s: State, es: seq<Event>, t: State, c: nat, payload: int, reply: Reply)
    returns (es': seq<Event>, t': State)
    requires Exec(s, es) == Some(t) && c < |t.cs.calls| && c + 1 < TWO_32
    requires t.q.loop == Responding(CallMsg(c, c + 1, payload), reply, false)
    requires t.cs.calls[c].phase.Waiting? && t.cs.calls[c].slot.None? && c + 1 in t.cs.pending && t.cs.pending[c + 1] == c
    ensures Exec(s, es') == Some(t') && c < |t'.cs.calls|
    ensures t'.cs.calls[c].phase == Returned(Replied(Response(c, c + 1, reply)))
  {
    es', t' := Do(s, es, t, OfLoop(ResponseLookup));
    es', t' := Do(s, es', t', OfLoop(ResponseDeliver));
    es', t' := Do(s, es', t', OfCaller(CallReceive(c)));
    es', t' := Do(s, es', t', OfCaller(CallReturn(c)));
  }
}
