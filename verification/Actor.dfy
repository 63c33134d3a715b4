/** The actor object. Each method is one atomic action of one goroutine on the shared fields, and performs
    exactly the event of ActorProtocol named in its contract; so the object's history is a run, and ActorRuns and
    ActorLimits say what holds of it. */
module Actor {
  import opened Basics
  import opened ActorProtocol
  import opened ActorRuns
  import opened ActorLimits

  class Actor {
    var state: ActorState
    var cancelled: bool
    var loop: Loop
    var mailbox: seq<Msg>
    const capacity: nat
    var messagesProcessed: uint64
    var sessionCounter: uint32
    var pendingCalls: map<uint32, nat>
    var calls: seq<CallRec>
    var sending: multiset<int>
    var stops: seq<StopPhase>
    // what happened to messages so far; no choice of the actor depends on it
    var accepted: seq<Msg>
    ghost var processed: seq<Msg>
    ghost var discarded: seq<Msg>
    ghost var replies: map<nat, Reply>
    ghost var events: seq<Event>
    ghost var states: seq<State>

    ghost function Abs(): State
      reads this
    {
      State(Queue(loop, mailbox, capacity, messagesProcessed, accepted, processed, discarded),
            Callers(sessionCounter, pendingCalls, calls, replies), Control(state, cancelled, stops), sending)
    }

    /** The object is where the events so far have led. */
    ghost predicate Valid()
      reads this
    {
      IsHistory(states, events) && states[0] == Init(capacity) && states[|events|] == Abs()
    }

    /** What a method did since it was called: exactly one event. */
    twostate predicate Performs(e: Event)
      reads this
    {
      Apply(old(Abs()), e) == Some(Abs()) && events == old(events) + [e] && Valid()
    }

    twostate predicate Nothing()
      reads this
    {
      Abs() == old(Abs()) && events == old(events) && Valid()
    }

    ghost method Record(e: Event, before: State)
      requires IsHistory(states, events) && states[0] == Init(capacity) && states[|events|] == before
      requires Apply(before, e) == Some(Abs())
      modifies this`events, this`states
      ensures events == old(events) + [e] && Valid() && Abs() == old(Abs())
    {
      events, states := events + [e], states + [Abs()];
    }

    /** The object's history is a run from the initial state. */
    lemma HistoryIsRunOfActor()
      requires Valid()
      ensures Exec(Init(capacity), events) == Some(Abs())
    {
      HistoryIsRun(states, events);
    }

    constructor (mailboxSize: nat)
      ensures Valid() && Abs() == Init(mailboxSize) && events == []
    {
      state, cancelled, loop, mailbox, capacity := Idle, false, NotStarted, [], mailboxSize;
      messagesProcessed, sessionCounter, pendingCalls, calls := 0, 0, map[], [];
      sending, stops := multiset{}, [];
      accepted, processed, discarded, replies, events := [], [], [], map[], [];
      states := [Init(mailboxSize)];
    }

    method Start() returns (ok: bool)
      requires Valid() && loop.NotStarted?
      modifies this
      ensures ok == (old(state) == Idle)
      ensures if ok then Performs(OfLoop(StartLoop)) else Nothing()
    {
      if state != Idle { return false; }
      loop := Receiving;
      Record(OfLoop(StartLoop), old(Abs()));
      return true;
    }

    // ---- Send ----

    method CheckBeforeSend(payload: int) returns (ok: bool)
      requires Valid()
      modifies this
      ensures ok == (old(state) != Stopped && old(state) != Stopping)
      ensures Performs(OfSender(SendCheck(payload)))
    {
      ok := state != Stopped && state != Stopping;
      if ok { sending := sending + multiset{payload}; }
      Record(OfSender(SendCheck(payload)), old(Abs()));
    }

    /** Some branch of Send's select that is ready. */
    method ReadyBranch() returns (choice: SendChoice)
      ensures MayChoose(Abs().q, Abs().ctl, choice)
    {
      var open, room := !loop.Closed?, |mailbox| < capacity;
      if
      case open && room => choice := Accept;
      case cancelled => choice := SeeDone;
      case open && !room && !cancelled => choice := SeeFull;
      case !open => choice := SendOnClosed;
    }

    method TrySend(payload: int) returns (choice: SendChoice)
      requires Valid() && payload in sending
      modifies this
      ensures Performs(OfSender(SendSelect(payload, choice)))
    {
      choice := ReadyBranch();
      sending := sending - multiset{payload};
      if choice == Accept {
        mailbox := mailbox + [Plain(payload)];
        accepted := accepted + [Plain(payload)];
      }
      Record(OfSender(SendSelect(payload, choice)), old(Abs()));
    }

    // ---- Call ----

    method OpenCall(payload: int) returns (c: nat)
      requires Valid()
      modifies this
      ensures c == |old(calls)| && Performs(OfCaller(CallBegin(payload)))
    {
      c := |calls|;
      sessionCounter := Succ32(sessionCounter);
      calls := calls + [CallRec(sessionCounter, payload, Begun, None, None)];
      pendingCalls := pendingCalls[sessionCounter := c];
      Record(OfCaller(CallBegin(payload)), old(Abs()));
    }

    method CheckBeforeCall(c: nat)
      requires Valid() && c < |calls| && calls[c].phase.Begun?
      modifies this
      ensures Performs(OfCaller(CallCheck(c)))
      ensures |calls| == |old(calls)| &&
        (calls[c].phase == if old(state) == Stopped || old(state) == Stopping then Leaving(NotRunning) else Checked)
    {
      var stopped := state == Stopped || state == Stopping;
      calls := calls[c := calls[c].(phase := if stopped then Leaving(NotRunning) else Checked)];
      Record(OfCaller(CallCheck(c)), old(Abs()));
    }

    method TryCall(c: nat) returns (choice: SendChoice)
      requires Valid() && c < |calls| && calls[c].phase.Checked?
      modifies this
      ensures Performs(OfCaller(CallSelect(c, choice)))
    {
      choice := ReadyBranch();
      if choice == Accept {
        var msg := CallMsg(c, calls[c].session, calls[c].payload);
        calls := calls[c := calls[c].(phase := Waiting, acceptedAt := Some(|accepted|))];
        mailbox := mailbox + [msg];
        accepted := accepted + [msg];
      } else {
        calls := calls[c := calls[c].(phase := Leaving(Refusal(choice)))];
      }
      Record(OfCaller(CallSelect(c, choice)), old(Abs()));
    }

    /** The caller's select: a response, its own context, or the actor's context; None when nothing is ready yet. */
    method AwaitReply(c: nat, callerDone: bool) returns (event: Option<CallEvent>)
      requires Valid() && c < |calls| && calls[c].phase.Waiting?
      modifies this
      ensures event.None? ==> Nothing() && !callerDone && !cancelled && calls[c].slot.None?
      ensures event.Some? ==>
        && (event.value == CallReceive(c) || event.value == CallSeeDone(c) || (event.value == CallCancel(c) && callerDone))
        && Performs(OfCaller(event.value))
    {
      var call := calls[c];
      if {
        case call.slot.Some? =>
          event := Some(CallReceive(c));
          calls := calls[c := call.(phase := Leaving(Replied(call.slot.value)), slot := None)];
        case callerDone =>
          event := Some(CallCancel(c));
          calls := calls[c := call.(phase := Leaving(Cancelled))];
        case cancelled =>
          event := Some(CallSeeDone(c));
          calls := calls[c := call.(phase := Leaving(ActorShutDown))];
        case call.slot.None? && !callerDone && !cancelled =>
          return None;
      }
      Record(OfCaller(event.value), old(Abs()));
    }

    method LeaveCall(c: nat) returns (result: CallResult)
      requires Valid() && c < |calls| && calls[c].phase.Leaving?
      modifies this
      ensures result == old(calls[c].phase.result) && Performs(OfCaller(CallReturn(c)))
    {
      result := calls[c].phase.result;
      pendingCalls := pendingCalls - {calls[c].session};
      calls := calls[c := calls[c].(phase := Returned(result))];
      Record(OfCaller(CallReturn(c)), old(Abs()));
    }

    /** With fewer than 2^32 calls so far, a call that returned a reply returned the one to its own message. */
    lemma ReturnedOwnReply(c: nat, r: Response)
      requires Valid() && |calls| < TWO_32 && c < |calls| && calls[c].phase == Returned(Replied(r))
      ensures r.origin == c && r.session == calls[c].session
      ensures var m := CallMsg(c, calls[c].session, calls[c].payload);
              (m in processed && c in replies && r.reply == replies[c]) || (m in discarded && r.reply.ShuttingDown?)
    {
      HistoryIsRunOfActor();
      CallGetsOwnReply(capacity, events, Abs(), c, r);
    }

    // ---- messageLoop ----

    /** The loop's select; None when nothing is ready yet. */
    method SelectInLoop() returns (event: Option<LoopEvent>)
      requires Valid() && loop.Receiving?
      modifies this
      ensures event.None? ==> Nothing() && mailbox == [] && !cancelled
      ensures event.Some? ==> (event.value.LoopReceive? || event.value.LoopSeesDone?) && Performs(OfLoop(event.value))
    {
      if {
        case mailbox != [] =>
          event := Some(LoopReceive);
          loop := Received(mailbox[0]);
          processed := processed + [mailbox[0]];
          mailbox := mailbox[1..];
        case cancelled =>
          event := Some(LoopSeesDone);
          loop := Draining;
        case mailbox == [] && !cancelled =>
          return None;
      }
      Record(OfLoop(event.value), old(Abs()));
    }

    method BeginProcess()
      requires Valid() && loop.Received?
      modifies this
      ensures Performs(OfLoop(ProcessBegin))
    {
      state := Running;
      messagesProcessed := (messagesProcessed + 1) % TWO_64;
      loop := Handling(loop.msg);
      Record(OfLoop(ProcessBegin), old(Abs()));
    }

    /** The handler has returned `reply` for the message in hand. */
    method AfterHandler(reply: Reply)
      requires Valid() && loop.Handling? && !reply.ShuttingDown?
      modifies this
      ensures Performs(OfLoop(HandlerReturns(reply)))
    {
      var msg := loop.msg;
      if Session(msg) != 0 {
        replies := replies[msg.call := reply];
        loop := Responding(msg, reply, false);
      } else {
        loop := EndingProcess;
      }
      Record(OfLoop(HandlerReturns(reply)), old(Abs()));
    }

    method LookUpPending()
      requires Valid() && loop.Responding?
      modifies this
      ensures Performs(OfLoop(ResponseLookup))
    {
      var session := Session(loop.msg);
      if session in pendingCalls {
        loop := Delivering(loop.msg, pendingCalls[session], loop.reply, loop.draining);
      } else {
        loop := AfterResponse(loop.draining);
      }
      Record(OfLoop(ResponseLookup), old(Abs()));
    }

    /** The channel found belongs to a call, however many calls there were; with fewer than 2^32 it is empty. */
    lemma DeliveryFindsItsCall()
      requires Valid() && loop.Delivering?
      ensures loop.target < |calls| && loop.msg.CallMsg?
      ensures |calls| < TWO_32 ==> loop.msg.call == loop.target && calls[loop.target].slot.None?
    {
      HistoryIsRunOfActor();
      DeliveryHasTarget(capacity, events, Abs());
      if |calls| < TWO_32 { ChannelIsNeverFull(capacity, events, Abs()); }
    }

    method DeliverResponse() returns (delivered: bool)
      requires Valid() && loop.Delivering?
      modifies this
      ensures Performs(OfLoop(ResponseDeliver))
      ensures |calls| < TWO_32 ==> delivered
    {
      DeliveryFindsItsCall();
      var c := loop.target;
      delivered := calls[c].slot.None?;
      if delivered {
        calls := calls[c := calls[c].(slot := Some(Response(loop.msg.call, loop.msg.session, loop.reply)))];
      }
      loop := AfterResponse(loop.draining);
      Record(OfLoop(ResponseDeliver), old(Abs()));
    }

    method EndProcess()
      requires Valid() && loop.EndingProcess?
      modifies this
      ensures Performs(OfLoop(ProcessEnd))
    {
      state := Idle;
      loop := Receiving;
      Record(OfLoop(ProcessEnd), old(Abs()));
    }

    method DrainOne()
      requires Valid() && loop.Draining?
      modifies this
      ensures Performs(OfLoop(DrainNext))
    {
      if mailbox == [] {
        loop := Closing;
      } else {
        var msg := mailbox[0];
        mailbox := mailbox[1..];
        discarded := discarded + [msg];
        loop := if Session(msg) != 0 then Responding(msg, ShuttingDown, true) else Draining;
      }
      assert Abs().q == Drain(old(Abs()).q);
      Record(OfLoop(DrainNext), old(Abs()));
    }

    method Close()
      requires Valid() && loop.Closing?
      modifies this
      ensures Performs(OfLoop(CloseMailbox))
    {
      loop := Closed;
      Record(OfLoop(CloseMailbox), old(Abs()));
    }

    // ---- Stop ----

    method OpenStop() returns (i: nat)
      requires Valid()
      modifies this
      ensures i == |old(stops)| && Performs(OfStopper(StopBegin))
    {
      i := |stops|;
      if state == Idle {
        state := Stopping;
        stops := stops + [Cancelling];
      } else {
        stops := stops + [SecondTry];
      }
      Record(OfStopper(StopBegin), old(Abs()));
    }

    method RetryStop(i: nat) returns (ok: bool)
      requires Valid() && i < |stops| && stops[i].SecondTry?
      modifies this
      ensures ok == (old(state) == Running) && Performs(OfStopper(StopRetry(i)))
    {
      ok := state == Running;
      if ok { state := Stopping; }
      stops := stops[i := if ok then Cancelling else StopRefused];
      Record(OfStopper(StopRetry(i)), old(Abs()));
    }

    method CancelContext(i: nat)
      requires Valid() && i < |stops| && stops[i].Cancelling?
      modifies this
      ensures Performs(OfStopper(StopCancel(i)))
    {
      cancelled := true;
      stops := stops[i := AwaitingLoop];
      Record(OfStopper(StopCancel(i)), old(Abs()));
    }

    method FinishStop(i: nat)
      requires Valid() && i < |stops| && stops[i].AwaitingLoop? && (loop.Closed? || loop.NotStarted?)
      modifies this
      ensures Performs(OfStopper(StopReturn(i)))
    {
      state := Stopped;
      stops := stops[i := StopReturned];
      Record(OfStopper(StopReturn(i)), old(Abs()));
    }

    /** Once Stop has returned, the mailbox holds exactly what was accepted after the drain, or everything accepted if
        the loop was never started. */
    lemma StoppedMailbox(i: nat)
      requires Valid() && i < |stops| && stops[i].StopReturned?
      ensures loop.NotStarted? || loop.Closed?
      ensures loop.NotStarted? ==> mailbox == accepted
      ensures Exec(Init(capacity), events) == Some(Abs()) && (loop.Closed? ==> mailbox == Late(Init(capacity), events))
    {
      HistoryIsRunOfActor();
      StopLeavesTheLate(capacity, events, Abs(), i);
    }
  }
}
