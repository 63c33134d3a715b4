/** Stopping an actor: a Stop that claimed the actor always comes to an end, nothing gets in after it, and what still gets in
    before. */
module ActorStops {
  import opened Basics
  import opened ActorProtocol
  import opened ActorRuns
  import opened ActorLimits
  import opened ActorOutcomes

  // ---- a Stop never sticks ----

  /** A Stop waits for the loop only once the actor's context is cancelled. */
  ghost predicate WaitsCancelled(ctl: Control) {
    forall k :: 0 <= k < |ctl.stops| && ctl.stops[k].AwaitingLoop? ==> ctl.cancelled
  }

  lemma {:induction false} RunWaitsCancelled(s: State, es: seq<Event>, t: State)
    requires WaitsCancelled(s.ctl) && Exec(s, es) == Some(t)
    ensures WaitsCancelled(t.ctl)
    decreases |es|
  {
    if es != [] {
      var s' := Apply(s, es[0]).value;
      StepWaitsCancelled(s, es[0], s');
      RunWaitsCancelled(s', es[1..], t);
    }
  }

  lemma StepWaitsCancelled(s: State, e: Event, s': State)
    requires WaitsCancelled(s.ctl) && Apply(s, e) == Some(s')
    ensures WaitsCancelled(s'.ctl)
  {
  }

  /** The next step of a cancelled loop; a handler at work is taken to return. */
  function NextStep(l: Loop): LoopEvent
    requires !l.NotStarted? && !l.Closed?
  {
    match l
    case Receiving => LoopSeesDone
    case Received(_) => ProcessBegin
    case Handling(_) => HandlerReturns(Success)
    case Responding(_, _, _) => ResponseLookup
    case Delivering(_, _, _, _) => ResponseDeliver
    case EndingProcess => ProcessEnd
    case Draining => DrainNext
    case Closing => CloseMailbox
  }

  /** Still processing, draining, or done. */
  function Stage(l: Loop): nat {
    match l
    case NotStarted | Closing | Closed => 0
    case Draining => 1
    case Responding(_, _, draining) => if draining then 1 else 2
    case Delivering(_, _, _, draining) => if draining then 1 else 2
    case _ => 2
  }

  /** Steps to the end of a stage, with no message left. */
  function StepsLeft(l: Loop): nat {
    match l
    case Received(_) => 5
    case Handling(_) => 4
    case Responding(_, _, _) => 3
    case Delivering(_, _, _, _) => 2
    case EndingProcess | Closing => 1
    case _ => 0
  }

  /** A cancelled loop can always take its next step, which brings it nearer to its end. */
  lemma NextStepIsEnabled(t: State, t': State)
    requires WrapInv(t) && t.ctl.cancelled && !t.q.loop.NotStarted? && !t.q.loop.Closed?
    requires t' == (match ApplyLoop(t, NextStep(t.q.loop)) case Some(u) => u case None => t)
    ensures ApplyLoop(t, NextStep(t.q.loop)) == Some(t')
    ensures t'.ctl == t.ctl.(state := t'.ctl.state) && t'.q.accepted == t.q.accepted && t'.sending == t.sending
    ensures !t'.q.loop.NotStarted? && (Stage(t.q.loop) > 0 == Stage(t'.q.loop) ==> t'.q.mailbox == [])
    ensures Stage(t.q.loop) == 0 ==> t'.q.mailbox == t.q.mailbox
    ensures Nearer(t.q, t'.q)
  {
  }

  predicate Nearer(q: Queue, q': Queue) {
    || Stage(q'.loop) < Stage(q.loop)
    || (Stage(q'.loop) == Stage(q.loop) &&
        (|q'.mailbox| < |q.mailbox| || (|q'.mailbox| == |q.mailbox| && StepsLeft(q'.loop) < StepsLeft(q.loop))))
  }

  /** Only the loop acts in the events added. */
  predicate OnlyLoop(es: seq<Event>, es': seq<Event>) {
    |es| <= |es'| && es'[..|es|] == es && forall i :: |es| <= i < |es'| ==> es'[i].OfLoop?
  }

  /** Left to itself, a cancelled loop comes to its end, with whatever is in its hands or its mailbox. */
  lemma {:induction false} LoopWindsUp(s: State, es: seq<Event>, t: State) returns (es': seq<Event>, t': State)
    requires Exec(s, es) == Some(t) && WrapInv(t) && t.ctl.cancelled
    ensures Exec(s, es') == Some(t') && OnlyLoop(es, es') && t'.ctl.stops == t.ctl.stops && t'.q.accepted == t.q.accepted
    ensures if t.q.loop.NotStarted? then t' == t else t'.q.loop.Closed?
    ensures t'.q.mailbox == if Stage(t.q.loop) > 0 then [] else t.q.mailbox
    decreases Stage(t.q.loop), |t.q.mailbox|, StepsLeft(t.q.loop)
  {
    if t.q.loop.NotStarted? || t.q.loop.Closed? {
      es', t' := es, t;
    } else {
      var e := NextStep(t.q.loop);
      var u := match ApplyLoop(t, e) case Some(u) => u case None => t;
      NextStepIsEnabled(t, u);
      var es1, t1 := Do(s, es, t, OfLoop(e));
      LoopKeepsWrapInv(t, e, t1);
      es', t' := LoopWindsUp(s, es1, t1);
      OneMore(es, e, es');
    }
  }

  lemma OneMore(es: seq<Event>, e: LoopEvent, es': seq<Event>)
    requires OnlyLoop(es + [OfLoop(e)], es')
    ensures OnlyLoop(es, es')
  {
    var es1 := es + [OfLoop(e)];
    assert es'[..|es|] == es'[..|es1|][..|es|] && es'[|es|] == es'[..|es1|][|es|];
  }

  /** In every run, however many calls it makes, wherever the loop is and whatever is queued: a Stop waiting for the loop
      can return by steps of the loop alone, and the actor is then stopped. A loop that had not yet drained its mailbox leaves
      it empty; otherwise what is in it stays. */
  lemma StopNeverSticks(capacity: nat, es: seq<Event>, t: State, k: nat) returns (es': seq<Event>, t': State)
    requires Exec(Init(capacity), es) == Some(t) && k < |t.ctl.stops| && t.ctl.stops[k].AwaitingLoop?
    ensures Exec(Init(capacity), es' + [OfStopper(StopReturn(k))]) == Some(t') && OnlyLoop(es, es')
    ensures t'.ctl.state == Stopped && t'.ctl.stops == t.ctl.stops[k := StopReturned]
    ensures t'.q.accepted == t.q.accepted && t'.q.mailbox == if Stage(t.q.loop) > 0 then [] else t.q.mailbox
  {
    var s := Init(capacity);
    EveryRunKeepsWrapInv(s, es, t);
    RunWaitsCancelled(s, es, t);
    var u;
    es', u := LoopWindsUp(s, es, t);
    var es2;
    es2, t' := Do(s, es', u, OfStopper(StopReturn(k)));
  }

  /** In every run an idle actor, started or not, can be stopped; a started one then has nothing left in its mailbox. */
  lemma IdleActorCanStop(capacity: nat, es: seq<Event>, t: State) returns (es': seq<Event>, t': State)
    requires Exec(Init(capacity), es) == Some(t) && t.ctl.state == Idle
    ensures Exec(Init(capacity), es') == Some(t') && t'.ctl.state == Stopped
    ensures t'.ctl.stops == t.ctl.stops + [StopReturned] && t'.q.accepted == t.q.accepted
    ensures Stage(t.q.loop) > 0 ==> t'.q.mailbox == []
  {
    var s, k := Init(capacity), |t.ctl.stops|;
    var es1, t1 := Do(s, es, t, OfStopper(StopBegin));
    es1, t1 := Do(s, es1, t1, OfStopper(StopCancel(k)));
    var es2;
    es2, t' := StopNeverSticks(capacity, es1, t1, k);
    es' := es2 + [OfStopper(StopReturn(k))];
  }

  // ---- nothing gets in after a Stop ----

  /** A call that came after the actor had stopped. */
  predicate Barred(call: CallRec) {
    call.phase == Begun || call.phase == Leaving(NotRunning) || call.phase == Returned(NotRunning)
  }

  predicate AllBarred(cs: Callers, from: nat) {
    forall c :: from <= c < |cs.calls| ==> Barred(cs.calls[c]) && cs.calls[c].slot.None?
  }

  lemma BarredStep(s: State, e: Event, s': State, from: nat)
    requires Finished(s) && Apply(s, e) == Some(s') && from <= |s.cs.calls| && AllBarred(s.cs, from)
    ensures AllBarred(s'.cs, from) && |s.cs.calls| <= |s'.cs.calls| && s'.sending <= s.sending
  {
    if e.OfCaller? { BarredCallStep(s, e.caller, s', from); }
  }

  lemma BarredCallStep(s: State, e: CallEvent, s': State, from: nat)
    requires Finished(s) && ApplyCall(s, e) == Some(s') && from <= |s.cs.calls| && AllBarred(s.cs, from)
    ensures AllBarred(s'.cs, from) && |s.cs.calls| <= |s'.cs.calls| && s'.sending == s.sending
  {
    if e.CallBegin? {
      assert s'.cs.calls[..|s.cs.calls|] == s.cs.calls;
    } else {
      assert forall c :: 0 <= c < |s.cs.calls| && c != e.call ==> s'.cs.calls[c] == s.cs.calls[c];
    }
  }

  lemma {:induction false} BarredRun(s: State, es: seq<Event>, t: State, from: nat)
    requires Finished(s) && Exec(s, es) == Some(t) && from <= |s.cs.calls| && AllBarred(s.cs, from)
    ensures AllBarred(t.cs, from) && t.sending <= s.sending
    decreases |es|
  {
    if es != [] {
      var s' := Apply(s, es[0]).value;
      FinishedStep(s, es[0], s');
      BarredStep(s, es[0], s', from);
      BarredRun(s', es[1..], t, from);
    }
  }

  /** Once a Stop has returned, no further send passes its check, and every call made from then on can only end as not
      running. */
  lemma NothingPassesAfterStop(capacity: nat, es: seq<Event>, s: State, k: nat, more: seq<Event>, t: State)
    requires Exec(Init(capacity), es) == Some(s) && k < |s.ctl.stops| && s.ctl.stops[k].StopReturned?
    requires Exec(s, more) == Some(t)
    ensures t.sending <= s.sending && AllBarred(t.cs, |s.cs.calls|)
  {
    StoppedIsFinished(capacity, es, s, k);
    BarredRun(s, more, t, |s.cs.calls|);
  }

  // ---- what still gets in before ----

  function SendOf(payload: int): seq<Event> {
    [OfSender(SendCheck(payload)), OfSender(SendSelect(payload, Accept))]
  }

  lemma ExecTwo(s: State, e1: Event, e2: Event)
    ensures Exec(s, [e1, e2]) == match Apply(s, e1) case None => None case Some(u) => Apply(u, e2)
  {
    if Apply(s, e1).Some? {
      ExecSnoc(s, [], s, e1);
      assert [] + [e1] == [e1] && [e1] + [e2] == [e1, e2];
      ExecSnoc(s, [e1], Apply(s, e1).value, e2);
    }
  }

  /** In every run in which no Stop was begun, whatever the actor is doing: a send is taken at once exactly if the mailbox has
      room, and then it is queued last. */
  lemma SendIsQueued(capacity: nat, es: seq<Event>, t: State, payload: int)
    requires Exec(Init(capacity), es) == Some(t) && t.ctl.stops == [] && payload !in t.sending
    ensures Exec(t, SendOf(payload)).Some? <==> |t.q.mailbox| < capacity
    ensures |t.q.mailbox| < capacity ==>
      Exec(t, SendOf(payload)).value.q == t.q.(mailbox := t.q.mailbox + [Plain(payload)], accepted := t.q.accepted + [Plain(payload)])
  {
    RunUndisturbed(Init(capacity), es, t);
    EveryRunKeepsQueue(Init(capacity), es, t);
    SendFromHere(t, payload);
  }

  lemma SendFromHere(t: State, payload: int)
    requires (t.ctl.state == Idle || t.ctl.state == Running) && !t.q.loop.Closed?
    ensures Exec(t, SendOf(payload)).Some? <==> |t.q.mailbox| < t.q.capacity
    ensures |t.q.mailbox| < t.q.capacity ==> Exec(t, SendOf(payload)).value.q == Put(t.q, Plain(payload))
  {
    ExecTwo(t, OfSender(SendCheck(payload)), OfSender(SendSelect(payload, Accept)));
  }

  /** Whenever the loop ends a message, the actor lets everything in again, also while it is being stopped: a send passes its
      check, and another Stop claims the actor. */
  lemma StoppingIsForgotten(t: State, payload: int)
    requires t.q.loop.EndingProcess?
    ensures Exec(t, [OfLoop(ProcessEnd), OfSender(SendCheck(payload))]) ==
            Some(t.(ctl := t.ctl.(state := Idle), q := t.q.(loop := Receiving), sending := t.sending + multiset{payload}))
    ensures Exec(t, [OfLoop(ProcessEnd), OfStopper(StopBegin)]) ==
            Some(t.(ctl := t.ctl.(state := Stopping, stops := t.ctl.stops + [Cancelling]), q := t.q.(loop := Receiving)))
  {
    var u := t.(ctl := t.ctl.(state := Idle), q := t.q.(loop := Receiving));
    assert Apply(t, OfLoop(ProcessEnd)) == Some(u);
    ExecTwo(t, OfLoop(ProcessEnd), OfSender(SendCheck(payload)));
    ExecTwo(t, OfLoop(ProcessEnd), OfStopper(StopBegin));
    PassesIdle(u, payload);
  }

  /** An idle actor lets a send pass, and a Stop claim it. */
  lemma PassesIdle(u: State, payload: int)
    requires u.ctl.state == Idle
    ensures Apply(u, OfSender(SendCheck(payload))) == Some(u.(sending := u.sending + multiset{payload}))
    ensures Apply(u, OfStopper(StopBegin)) == Some(u.(ctl := u.ctl.(state := Stopping, stops := u.ctl.stops + [Cancelling])))
  {
  }

  /** That does happen: a run in which a Stop has claimed the actor and a send still passes its check afterwards. */
  lemma SendPassesWhileStopping(capacity: nat, payload: int) returns (es: seq<Event>, t: State)
    requires capacity > 0
    ensures Exec(Init(capacity), es) == Some(t) && t.ctl == Control(Idle, false, [Cancelling]) && t.sending == multiset{payload}
    ensures es[|es| - 1] == OfSender(SendCheck(payload))
  {
    es, t := BusyWithOne(capacity, payload);
    es, t := StopThenSend(Init(capacity), es, t, payload);
  }

  lemma StopThenSend(s: State, es: seq<Event>, t: State, payload: int) returns (es': seq<Event>, t': State)
    requires Exec(s, es) == Some(t) && t.ctl == Control(Running, false, []) && t.sending == multiset{}
    requires t.q.loop.Handling? && t.q.loop.msg.Plain?
    ensures Exec(s, es') == Some(t') && t'.ctl == Control(Idle, false, [Cancelling]) && t'.sending == multiset{payload}
    ensures es' != [] && es'[|es'| - 1] == OfSender(SendCheck(payload))
  {
    es', t' := ClaimRunning(s, es, t);
    es', t' := Do(s, es', t', OfLoop(HandlerReturns(Success)));
    es', t' := Do(s, es', t', OfLoop(ProcessEnd));
    es', t' := Do(s, es', t', OfSender(SendCheck(payload)));
  }

  lemma ClaimRunning(s: State, es: seq<Event>, t: State) returns (es': seq<Event>, t': State)
    requires Exec(s, es) == Some(t) && t.ctl == Control(Running, false, [])
    ensures Exec(s, es') == Some(t') && t' == t.(ctl := Control(Stopping, false, [Cancelling]))
  {
    es', t' := Do(s, es, t, OfStopper(StopBegin));
    assert t'.ctl.stops == [SecondTry];
    es', t' := Do(s, es', t', OfStopper(StopRetry(0)));
  }
}
