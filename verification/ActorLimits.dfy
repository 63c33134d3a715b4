/** Where the actor's promises end: messages accepted when nobody takes them any more, and calls whose session
    wrapped to 0. */
module ActorLimits {
  import opened Basics
  import opened ActorProtocol
  import opened ActorRuns

  // ---- messages nobody takes ----

  /** The drain is over: the loop takes no more messages. */
  predicate Ended(l: Loop) {
    l.Closing? || l.Closed?
  }

  /** What an event puts into the mailbox. */
  function AcceptedBy(s: State, e: Event): seq<Msg> {
    match e
    case OfSender(SendSelect(payload, Accept)) => [Plain(payload)]
    case OfCaller(CallSelect(c, Accept)) => if c < |s.cs.calls| then [MsgOf(s.cs, c)] else []
    case _ => []
  }

  /** The messages accepted in a run by selects taken after the drain was over. */
  function Late(s: State, es: seq<Event>): seq<Msg>
    requires Exec(s, es).Some?
    decreases |es|
  {
    if es == [] then [] else
      (if Ended(s.q.loop) then AcceptedBy(s, es[0]) else []) + Late(Apply(s, es[0]).value, es[1..])
  }

  /** The drain ends on an empty mailbox, and from then on only acceptances change it. */
  lemma StepStrands(s: State, e: Event, s': State)
    requires Apply(s, e) == Some(s') && Ended(s'.q.loop)
    ensures s'.q.mailbox == if Ended(s.q.loop) then s.q.mailbox + AcceptedBy(s, e) else []
  {
    match e
    case OfLoop(step) => LoopStrands(s, step, s');
    case OfCaller(caller) => CallStrands(s, caller, s');
    case _ =>
  }

  lemma LoopStrands(s: State, e: LoopEvent, s': State)
    requires ApplyLoop(s, e) == Some(s') && Ended(s'.q.loop)
    ensures s'.q.mailbox == if Ended(s.q.loop) then s.q.mailbox else []
  {
  }

  lemma CallStrands(s: State, e: CallEvent, s': State)
    requires ApplyCall(s, e) == Some(s')
    ensures s'.q.loop == s.q.loop && s'.q.mailbox == s.q.mailbox + AcceptedBy(s, OfCaller(e))
  {
  }

  lemma EndedStays(s: State, e: Event, s': State)
    requires Apply(s, e) == Some(s') && Ended(s.q.loop)
    ensures Ended(s'.q.loop)
  {
  }

  lemma {:induction false} RunStrands(s: State, es: seq<Event>, t: State)
    requires Exec(s, es) == Some(t) && Ended(t.q.loop)
    ensures t.q.mailbox == (if Ended(s.q.loop) then s.q.mailbox else []) + Late(s, es)
    decreases |es|
  {
    if es != [] {
      var s' := Apply(s, es[0]).value;
      RunStrands(s', es[1..], t);
      if Ended(s.q.loop) { EndedStays(s, es[0], s'); }
      if Ended(s'.q.loop) { StepStrands(s, es[0], s'); }
    }
  }

  /** What a returned Stop leaves behind, in every run: if the loop was never started, everything accepted; otherwise
      exactly the messages whose select was taken after the drain was over. So nothing accepted is lost after a started
      loop exactly when no select accepted that late. */
  lemma StopLeavesTheLate(capacity: nat, es: seq<Event>, t: State, i: nat)
    requires Exec(Init(capacity), es) == Some(t) && i < |t.ctl.stops| && t.ctl.stops[i].StopReturned?
    ensures t.q.loop.NotStarted? || t.q.loop.Closed?
    ensures t.q.loop.NotStarted? ==> t.q.mailbox == t.q.accepted && t.q.processed == t.q.discarded == []
    ensures t.q.loop.Closed? ==> t.q.mailbox == Late(Init(capacity), es)
    ensures t.q.loop.Closed? ==> (t.q.accepted == t.q.processed + t.q.discarded <==> Late(Init(capacity), es) == [])
  {
    EveryRunKeepsQueue(Init(capacity), es, t);
    if t.q.loop.Closed? {
      RunStrands(Init(capacity), es, t);
      assert |t.q.accepted| == |t.q.processed + t.q.discarded| + |t.q.mailbox|;
    }
  }

  /** One more event of a run. */
  lemma Do(s: State, es: seq<Event>, t: State, e: Event) returns (es': seq<Event>, t': State)
    requires Exec(s, es) == Some(t) && Apply(t, e).Some?
    ensures es' == es + [e] && Exec(s, es') == Some(t') && Some(t') == Apply(t, e)
  {
    ExecSnoc(s, es, t, e);
    es', t' := es + [e], Apply(t, e).value;
  }

  /** Late acceptances happen: here a send passes its check before Stop and is accepted after the drain. */
  lemma MessageCanBeStranded(capacity: nat, payload: int) returns (es: seq<Event>, t: State)
    requires capacity > 0
    ensures Exec(Init(capacity), es) == Some(t)
    ensures t.ctl.stops == [StopReturned] && t.q.loop.Closed?
    ensures t.q.accepted == t.q.mailbox == [Plain(payload)] && t.q.processed == t.q.discarded == []
  {
    var s := Init(capacity);
    es, t := Do(s, [], s, OfLoop(StartLoop));
    es, t := Do(s, es, t, OfSender(SendCheck(payload)));
    es, t := StopBegins(s, es, t);
    es, t := DrainsNothing(s, es, t);
    es, t := Do(s, es, t, OfSender(SendSelect(payload, Accept)));
    es, t := StopEnds(s, es, t);
  }

  /** Stop claims an idle actor and cancels its context. */
  lemma StopBegins(s: State, es: seq<Event>, t: State) returns (es': seq<Event>, t': State)
    requires Exec(s, es) == Some(t) && t.ctl == Control(Idle, false, [])
    ensures Exec(s, es') == Some(t') && t' == t.(ctl := Control(Stopping, true, [AwaitingLoop]))
  {
    es', t' := Do(s, es, t, OfStopper(StopBegin));
    assert t'.ctl.stops == [Cancelling];
    es', t' := Do(s, es', t', OfStopper(StopCancel(0)));
  }

  /** The cancelled loop finds its mailbox empty. */
  lemma DrainsNothing(s: State, es: seq<Event>, t: State) returns (es': seq<Event>, t': State)
    requires Exec(s, es) == Some(t) && t.q.loop.Receiving? && t.q.mailbox == [] && t.ctl.cancelled
    ensures Exec(s, es') == Some(t') && t' == t.(q := t.q.(loop := Closing))
  {
    es', t' := Do(s, es, t, OfLoop(LoopSeesDone));
    es', t' := Do(s, es', t', OfLoop(DrainNext));
  }

  /** The loop closes the mailbox with what is in it, and Stop returns. */
  lemma StopEnds(s: State, es: seq<Event>, t: State) returns (es': seq<Event>, t': State)
    requires Exec(s, es) == Some(t) && t.q.loop.Closing? && t.ctl.stops == [AwaitingLoop]
    ensures Exec(s, es') == Some(t')
    ensures t' == t.(q := t.q.(loop := Closed), ctl := t.ctl.(state := Stopped, stops := [StopReturned]))
  {
    es', t' := Do(s, es, t, OfLoop(CloseMailbox));
    es', t' := Do(s, es', t', OfStopper(StopReturn(0)));
  }

  // ---- calls whose session wrapped to 0 ----

  /** Sessions count the calls modulo 2^32, and pending entries name a call with that session. */
  ghost predicate SessionsOk(cs: Callers) {
    && cs.counter == |cs.calls| % TWO_32
    && (forall c :: 0 <= c < |cs.calls| ==> cs.calls[c].session == (c + 1) % TWO_32)
    && (forall k :: k in cs.pending ==> cs.pending[k] < |cs.calls| && cs.calls[cs.pending[k]].session == k)
  }

  /** The loop only answers messages with a session, and delivers to calls with one. */
  ghost predicate AnswersSessions(l: Loop, cs: Callers) {
    && (l.Responding? || l.Delivering? ==> Session(l.msg) != 0)
    && (l.Delivering? ==> l.target < |cs.calls| && cs.calls[l.target].session != 0)
  }

  predicate NeverReplied(call: CallRec) {
    call.slot.None? && !((call.phase.Leaving? || call.phase.Returned?) && call.phase.result.Replied?)
  }

  ghost predicate ZeroUnanswered(cs: Callers) {
    forall c :: 0 <= c < |cs.calls| && cs.calls[c].session == 0 ==> NeverReplied(cs.calls[c])
  }

  ghost predicate WrapInv(s: State) {
    SessionsOk(s.cs) && AnswersSessions(s.q.loop, s.cs) && ZeroUnanswered(s.cs)
  }

  lemma NextSession(n: nat)
    ensures Succ32(n % TWO_32) == (n + 1) % TWO_32
  {
  }

  lemma BeginKeepsSessions(cs: Callers, payload: int)
    requires SessionsOk(cs)
    ensures SessionsOk(BeginCall(cs, payload))
  {
    NextSession(|cs.calls|);
  }

  /** Changing one call without answering it, and forgetting pending entries, keeps the rest. */
  lemma OneCallKeepsWrapInv(l: Loop, cs: Callers, cs': Callers, c: nat)
    requires SessionsOk(cs) && AnswersSessions(l, cs) && ZeroUnanswered(cs) && c < |cs.calls|
    requires cs'.counter == cs.counter && |cs'.calls| == |cs.calls|
    requires cs'.calls == cs.calls[c := cs'.calls[c]] && cs'.calls[c].session == cs.calls[c].session
    requires cs'.pending == cs.pending || cs'.pending == cs.pending - {cs.calls[c].session}
    requires cs.calls[c].session == 0 ==> NeverReplied(cs'.calls[c])
    ensures SessionsOk(cs') && AnswersSessions(l, cs') && ZeroUnanswered(cs')
  {
  }

  lemma CallKeepsWrapInv(s: State, e: CallEvent, s': State)
    requires WrapInv(s) && ApplyCall(s, e) == Some(s')
    ensures WrapInv(s')
  {
    if e.CallBegin? {
      BeginKeepsSessions(s.cs, e.payload);
    } else {
      OneCallKeepsWrapInv(s.q.loop, s.cs, s'.cs, e.call);
    }
  }

  lemma LoopKeepsWrapInv(s: State, e: LoopEvent, s': State)
    requires WrapInv(s) && ApplyLoop(s, e) == Some(s')
    ensures WrapInv(s')
  {
  }

  /** Every run keeps this, however many calls it makes. */
  lemma {:induction false} EveryRunKeepsWrapInv(s: State, es: seq<Event>, t: State)
    requires WrapInv(s) && Exec(s, es) == Some(t)
    ensures WrapInv(t) && |s.cs.calls| <= |t.cs.calls|
    decreases |es|
  {
    if es != [] {
      var s' := Apply(s, es[0]).value;
      match es[0] {
        case OfSender(_) =>
        case OfCaller(e) => CallKeepsWrapInv(s, e, s');
        case OfLoop(e) => LoopKeepsWrapInv(s, e, s');
        case OfStopper(_) =>
      }
      CallsGrow(s, es[0], s');
      EveryRunKeepsWrapInv(s', es[1..], t);
    }
  }

  /** A response is only ever delivered to a call that exists, and answers a call's message. */
  lemma DeliveryHasTarget(capacity: nat, es: seq<Event>, t: State)
    requires Exec(Init(capacity), es) == Some(t) && t.q.loop.Delivering?
    ensures t.q.loop.target < |t.cs.calls| && t.q.loop.msg.CallMsg?
  {
    EveryRunKeepsWrapInv(Init(capacity), es, t);
  }

  /** In every run, however many calls it makes, every 2^32nd call carries session 0; it never holds a response and
      never leaves with one. */
  lemma ZeroSessionIsNeverAnswered(capacity: nat, es: seq<Event>, t: State, c: nat)
    requires Exec(Init(capacity), es) == Some(t) && c < |t.cs.calls|
    ensures t.cs.calls[c].session == 0 <==> (c + 1) % TWO_32 == 0
    ensures t.cs.calls[c].session == 0 ==> NeverReplied(t.cs.calls[c])
  {
    EveryRunKeepsWrapInv(Init(capacity), es, t);
  }

  // ---- whose reply a call gets when sessions have wrapped ----

  /** A call's message carries its session. */
  predicate MsgOk(cs: Callers, m: Msg) {
    m.CallMsg? ==> m.call < |cs.calls| && m.session == cs.calls[m.call].session
  }

  ghost predicate MsgsOk(q: Queue, cs: Callers) {
    && (forall i :: 0 <= i < |q.mailbox| ==> MsgOk(cs, q.mailbox[i]))
    && (InHand(q.loop) ==> MsgOk(cs, q.loop.msg))
  }

  /** What is being delivered answers a message with the session of the call it goes to. */
  predicate DeliveryOk(l: Loop, cs: Callers) {
    l.Delivering? ==> l.msg.CallMsg? && l.target < |cs.calls| && cs.calls[l.target].session == l.msg.session
  }

  /** `r` answers a call with the same session as `c`. */
  predicate SameSession(cs: Callers, r: Response, c: nat)
    requires c < |cs.calls|
  {
    r.origin < |cs.calls| && r.session == cs.calls[r.origin].session == cs.calls[c].session
  }

  predicate HoldsSameSession(cs: Callers, c: nat)
    requires c < |cs.calls|
  {
    var call := cs.calls[c];
    && (call.slot.Some? ==> SameSession(cs, call.slot.value, c))
    && ((call.phase.Leaving? || call.phase.Returned?) && call.phase.result.Replied? ==> SameSession(cs, call.phase.result.resp, c))
  }

  ghost predicate HoldOk(cs: Callers) {
    forall c :: 0 <= c < |cs.calls| ==> HoldsSameSession(cs, c)
  }

  ghost predicate ReplyInv(s: State) {
    WrapInv(s) && MsgsOk(s.q, s.cs) && DeliveryOk(s.q.loop, s.cs) && HoldOk(s.cs)
  }

  /** No call changes its session, and none disappears. */
  ghost predicate SessionsStay(cs: Callers, cs': Callers) {
    |cs.calls| <= |cs'.calls| && forall c :: 0 <= c < |cs.calls| ==> cs'.calls[c].session == cs.calls[c].session
  }

  lemma MsgsStayOk(q: Queue, cs: Callers, cs': Callers)
    requires MsgsOk(q, cs) && DeliveryOk(q.loop, cs) && SessionsStay(cs, cs')
    ensures MsgsOk(q, cs') && DeliveryOk(q.loop, cs')
  {
  }

  /** Changing one call keeps the others, if what it holds then is of its own session. */
  lemma OneCallHolds(cs: Callers, cs': Callers, c: nat)
    requires HoldOk(cs) && c < |cs.calls| == |cs'.calls| && cs'.calls == cs.calls[c := cs'.calls[c]]
    requires cs'.calls[c].session == cs.calls[c].session && HoldsSameSession(cs', c)
    ensures HoldOk(cs') && SessionsStay(cs, cs')
  {
    forall d | 0 <= d < |cs'.calls| ensures HoldsSameSession(cs', d) {
      if d != c { assert HoldsSameSession(cs, d); }
    }
  }

  lemma BeginHolds(cs: Callers, payload: int)
    requires HoldOk(cs)
    ensures HoldOk(BeginCall(cs, payload)) && SessionsStay(cs, BeginCall(cs, payload))
  {
    var cs' := BeginCall(cs, payload);
    forall d | 0 <= d < |cs'.calls| ensures HoldsSameSession(cs', d) {
      if d < |cs.calls| { assert HoldsSameSession(cs, d); }
    }
  }

  lemma SendKeepsReplyInv(s: State, e: SendEvent, s': State)
    requires ReplyInv(s) && ApplySend(s, e) == Some(s')
    ensures ReplyInv(s')
  {
  }

  lemma CallKeepsReplyInv(s: State, e: CallEvent, s': State)
    requires ReplyInv(s) && ApplyCall(s, e) == Some(s')
    ensures ReplyInv(s')
  {
    CallKeepsWrapInv(s, e, s');
    if e.CallBegin? {
      BeginHolds(s.cs, e.payload);
    } else {
      assert HoldsSameSession(s.cs, e.call);
      OneCallHolds(s.cs, s'.cs, e.call);
    }
    MsgsStayOk(s.q, s.cs, s'.cs);
  }

  lemma LoopKeepsReplyInv(s: State, e: LoopEvent, s': State)
    requires ReplyInv(s) && ApplyLoop(s, e) == Some(s')
    ensures ReplyInv(s')
  {
    LoopKeepsWrapInv(s, e, s');
    if e.ResponseDeliver? {
      assert HoldsSameSession(s.cs, s.q.loop.target);
      OneCallHolds(s.cs, s'.cs, s.q.loop.target);
      MsgsStayOk(s.q, s.cs, s'.cs);
    } else {
      HoldsFor(s.cs, s'.cs);
    }
  }

  lemma HoldsFor(cs: Callers, cs': Callers)
    requires HoldOk(cs) && cs'.calls == cs.calls
    ensures HoldOk(cs')
  {
    forall d | 0 <= d < |cs'.calls| ensures HoldsSameSession(cs', d) {
      assert HoldsSameSession(cs, d);
    }
  }

  lemma {:induction false} EveryRunKeepsReplyInv(s: State, es: seq<Event>, t: State)
    requires ReplyInv(s) && Exec(s, es) == Some(t)
    ensures ReplyInv(t)
    decreases |es|
  {
    if es != [] {
      var s' := Apply(s, es[0]).value;
      match es[0] {
        case OfSender(e) => SendKeepsReplyInv(s, e, s');
        case OfCaller(e) => CallKeepsReplyInv(s, e, s');
        case OfLoop(e) => LoopKeepsReplyInv(s, e, s');
        case OfStopper(_) =>
      }
      EveryRunKeepsReplyInv(s', es[1..], t);
    }
  }

  /** In every run, however many calls it makes: a call that returned a reply got that of a call whose number differs from
      its own by a multiple of 2^32. With fewer calls than that there is only one such call. */
  lemma ReplyUpToWrap(capacity: nat, es: seq<Event>, t: State, c: nat, r: Response)
    requires Exec(Init(capacity), es) == Some(t) && c < |t.cs.calls| && t.cs.calls[c].phase == Returned(Replied(r))
    ensures r.origin < |t.cs.calls| && (r.origin + 1) % TWO_32 == (c + 1) % TWO_32
    ensures |t.cs.calls| <= TWO_32 ==> r.origin == c
  {
    EveryRunKeepsReplyInv(Init(capacity), es, t);
    assert HoldsSameSession(t.cs, c);
    if |t.cs.calls| <= TWO_32 { OneCallPerSession(r.origin, c); }
  }

  lemma OneCallPerSession(a: nat, b: nat)
    requires a < TWO_32 && b < TWO_32 && (a + 1) % TWO_32 == (b + 1) % TWO_32
    ensures a == b
  {
  }

  // ---- a run that reaches session 0 ----

  /** Any number of calls can be begun. */
  lemma {:induction false} ManyCalls(s: State, n: nat) returns (es: seq<Event>, t: State)
    ensures Exec(s, es) == Some(t) && t == s.(cs := t.cs)
    ensures |t.cs.calls| == |s.cs.calls| + n && t.cs.counter == (s.cs.counter + n) % TWO_32
    ensures n > 0 ==> t.cs.calls[|t.cs.calls| - 1] == CallRec(t.cs.counter, 0, Begun, None, None)
  {
    es, t := [], s;
    if n > 0 {
      es, t := ManyCalls(s, n - 1);
      NextSession(s.cs.counter + n - 1);
      es, t := Do(s, es, t, OfCaller(CallBegin(0)));
    }
  }

  /** A call whose session wrapped to 0 is accepted, received and handled like a plain send. */
  lemma ZeroSessionIsIgnored(s: State, c: nat, es: seq<Event>, t: State) returns (es': seq<Event>, t': State)
    requires Exec(s, es) == Some(t) && c < |t.cs.calls| && t.q.capacity > 0
    requires t.cs.calls[c] == CallRec(0, 0, Begun, None, None)
    requires t.q.mailbox == [] && t.q.loop.NotStarted? && t.ctl.state == Idle
    ensures Exec(s, es') == Some(t') && |t'.cs.calls| == |t.cs.calls|
    ensures t'.cs.calls[c].phase.Waiting? && MsgOf(t'.cs, c) in t'.q.processed
  {
    es', t' := Do(s, es, t, OfLoop(StartLoop));
    es', t' := Do(s, es', t', OfCaller(CallCheck(c)));
    es', t' := Do(s, es', t', OfCaller(CallSelect(c, Accept)));
    assert t'.q.mailbox == [CallMsg(c, 0, 0)];
    es', t' := HandleZeroSession(s, c, es', t');
  }

  lemma HandleZeroSession(s: State, c: nat, es: seq<Event>, t: State) returns (es': seq<Event>, t': State)
    requires Exec(s, es) == Some(t) && t.q.mailbox == [CallMsg(c, 0, 0)] && t.q.loop.Receiving?
    ensures Exec(s, es') == Some(t') && t'.cs == t.cs && CallMsg(c, 0, 0) in t'.q.processed
  {
    es', t' := Do(s, es, t, OfLoop(LoopReceive));
    es', t' := Do(s, es', t', OfLoop(ProcessBegin));
    es', t' := Do(s, es', t', OfLoop(HandlerReturns(Success)));
  }

  /** With 2^32 calls there is a run that processes the last call's message while its caller waits, and no
      continuation of it ever answers that call. */
  lemma WrappedCallIsNeverAnswered(capacity: nat) returns (es: seq<Event>, t: State)
    requires capacity > 0
    ensures Exec(Init(capacity), es) == Some(t) && |t.cs.calls| == TWO_32
    ensures var c := TWO_32 - 1; t.cs.calls[c].phase.Waiting? && MsgOf(t.cs, c) in t.q.processed
    ensures forall more, u :: Exec(t, more) == Some(u) ==> |u.cs.calls| >= TWO_32 && NeverReplied(u.cs.calls[TWO_32 - 1])
  {
    var s := Init(capacity);
    es, t := ManyCalls(s, TWO_32);
    es, t := ZeroSessionIsIgnored(s, TWO_32 - 1, es, t);
    forall more, u | Exec(t, more) == Some(u)
      ensures |u.cs.calls| >= TWO_32 && NeverReplied(u.cs.calls[TWO_32 - 1])
    {
      EveryRunKeepsWrapInv(s, es, t);
      EveryRunKeepsWrapInv(t, more, u);
    }
  }
}
