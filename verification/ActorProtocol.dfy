/** The mailbox and call protocol of one actor as interleaved atomic steps: senders, callers, the single message
    loop and stoppers. One event is one atomic action of one goroutine; a run is any sequence of enabled events. */
module ActorProtocol {
  import opened Basics

  datatype ActorState = Idle | Running | Stopping | Stopped

  /** A plain send carries session 0; a call's message carries the session drawn for it. */
  datatype Msg = Plain(payload: int) | CallMsg(call: nat, session: uint32, payload: int)

  /** What the handler made of a message, or the answer given while draining. */
  datatype Reply = Success | Failure(text: string) | ShuttingDown

  datatype Response = Response(origin: nat, session: uint32, reply: Reply)

  datatype CallResult =
    | Replied(resp: Response)
    | NotRunning
    | MailboxFull
    | ActorShutDown
    | Cancelled
    | SendPanicked

  datatype Phase =
    | Begun                         // session drawn, channel stored
    | Checked                       // Send saw a running actor
    | Waiting                       // message accepted, waiting for the one-slot channel
    | Leaving(result: CallResult)   // result known, pending entry not yet deleted
    | Returned(result: CallResult)

  /** One Call: `slot` is its one-slot channel, `acceptedAt` its message's place among all accepted messages. */
  datatype CallRec = CallRec(session: uint32, payload: int, phase: Phase, slot: Option<Response>, acceptedAt: Option<nat>)

  datatype Loop =
    | NotStarted
    | Receiving
    | Received(msg: Msg)
    | Handling(msg: Msg)
    | Responding(msg: Msg, reply: Reply, draining: bool)
    | Delivering(msg: Msg, target: nat, reply: Reply, draining: bool)
    | EndingProcess
    | Draining
    | Closing
    | Closed

  datatype StopPhase = SecondTry | Cancelling | AwaitingLoop | StopReturned | StopRefused

  /** The mailbox channel and the message loop, with the history of what went through them. */
  datatype Queue = Queue(
    loop: Loop,
    mailbox: seq<Msg>,
    capacity: nat,
    messagesProcessed: uint64,
    accepted: seq<Msg>,
    processed: seq<Msg>,
    discarded: seq<Msg>)

  /** The session counter, the pending table, all calls ever made, and what the handler returned for them. */
  datatype Callers = Callers(
    counter: uint32,
    pending: map<uint32, nat>,
    calls: seq<CallRec>,
    replies: map<nat, Reply>)

  /** The atomic state word, the actor's context, and the calls of Stop. */
  datatype Control = Control(state: ActorState, cancelled: bool, stops: seq<StopPhase>)

  /** `sending` holds the plain sends that have passed the state check. */
  datatype State = State(q: Queue, cs: Callers, ctl: Control, sending: multiset<int>)

  datatype SendChoice = Accept | SeeDone | SeeFull | SendOnClosed

  datatype SendEvent =
    | SendCheck(payload: int)
    | SendSelect(payload: int, choice: SendChoice)

  datatype CallEvent =
    | CallBegin(payload: int)
    | CallCheck(call: nat)
    | CallSelect(call: nat, choice: SendChoice)
    | CallReceive(call: nat)
    | CallCancel(call: nat)
    | CallSeeDone(call: nat)
    | CallReturn(call: nat)

  datatype LoopEvent =
    | StartLoop
    | LoopReceive
    | ProcessBegin
    | HandlerReturns(reply: Reply)
    | ResponseLookup
    | ResponseDeliver
    | ProcessEnd
    | LoopSeesDone
    | DrainNext
    | CloseMailbox

  datatype StopEvent =
    | StopBegin
    | StopRetry(stop: nat)
    | StopCancel(stop: nat)
    | StopReturn(stop: nat)

  datatype Event = OfSender(send: SendEvent) | OfCaller(caller: CallEvent) | OfLoop(step: LoopEvent) | OfStopper(stopper: StopEvent)

  function Init(capacity: nat): State {
    State(Queue(NotStarted, [], capacity, 0, [], [], []), Callers(0, map[], [], map[]), Control(Idle, false, []), multiset{})
  }

  function Session(m: Msg): uint32 {
    if m.Plain? then 0 else m.session
  }

  function MsgOf(cs: Callers, c: nat): Msg
    requires c < |cs.calls|
  {
    CallMsg(c, cs.calls[c].session, cs.calls[c].payload)
  }

  predicate NotRunningNow(ctl: Control) {
    ctl.state == Stopped || ctl.state == Stopping
  }

  /** Which branch of Send's select may be taken: default only when nothing else is ready. */
  predicate MayChoose(q: Queue, ctl: Control, choice: SendChoice) {
    match choice
    case Accept => !q.loop.Closed? && |q.mailbox| < q.capacity
    case SeeDone => ctl.cancelled
    case SeeFull => !q.loop.Closed? && |q.mailbox| >= q.capacity && !ctl.cancelled
    case SendOnClosed => q.loop.Closed?
  }

  function Put(q: Queue, m: Msg): Queue {
    q.(mailbox := q.mailbox + [m], accepted := q.accepted + [m])
  }

  function ApplySend(s: State, e: SendEvent): Option<State> {
    match e
    case SendCheck(p) =>
      Some(if NotRunningNow(s.ctl) then s else s.(sending := s.sending + multiset{p}))
    case SendSelect(p, choice) =>
      if p !in s.sending || !MayChoose(s.q, s.ctl, choice) then None else
        Some(s.(sending := s.sending - multiset{p}, q := if choice.Accept? then Put(s.q, Plain(p)) else s.q))
  }

  /** What a refused send makes of a call. */
  function Refusal(choice: SendChoice): CallResult
    requires !choice.Accept?
  {
    match choice
    case SeeDone => ActorShutDown
    case SeeFull => MailboxFull
    case SendOnClosed => SendPanicked
  }

  function BeginCall(cs: Callers, payload: int): Callers {
    var session := Succ32(cs.counter);
    cs.(counter := session, pending := cs.pending[session := |cs.calls|],
        calls := cs.calls + [CallRec(session, payload, Begun, None, None)])
  }

  function SetPhase(cs: Callers, c: nat, p: Phase): Callers
    requires c < |cs.calls|
  {
    cs.(calls := cs.calls[c := cs.calls[c].(phase := p)])
  }

  function ApplyCall(s: State, e: CallEvent): Option<State> {
    var cs := s.cs;
    if e.CallBegin? then Some(s.(cs := BeginCall(cs, e.payload)))
    else if e.call >= |cs.calls| then None
    else
      var c, call := e.call, cs.calls[e.call];
      match e
      case CallCheck(_) =>
        if !call.phase.Begun? then None else
          Some(s.(cs := SetPhase(cs, c, if NotRunningNow(s.ctl) then Leaving(NotRunning) else Checked)))
      case CallSelect(_, choice) =>
        if !call.phase.Checked? || !MayChoose(s.q, s.ctl, choice) then None
        else if choice.Accept? then
          Some(s.(q := Put(s.q, MsgOf(cs, c)),
                  cs := cs.(calls := cs.calls[c := call.(phase := Waiting, acceptedAt := Some(|s.q.accepted|))])))
        else Some(s.(cs := SetPhase(cs, c, Leaving(Refusal(choice)))))
      case CallReceive(_) =>
        if !call.phase.Waiting? || call.slot.None? then None else
          Some(s.(cs := cs.(calls := cs.calls[c := call.(phase := Leaving(Replied(call.slot.value)), slot := None)])))
      case CallCancel(_) =>
        if !call.phase.Waiting? then None else Some(s.(cs := SetPhase(cs, c, Leaving(Cancelled))))
      case CallSeeDone(_) =>
        if !call.phase.Waiting? || !s.ctl.cancelled then None else Some(s.(cs := SetPhase(cs, c, Leaving(ActorShutDown))))
      case CallReturn(_) =>
        if !call.phase.Leaving? then None else
          Some(s.(cs := SetPhase(cs, c, Returned(call.phase.result)).(pending := cs.pending - {call.session})))
  }

  /** Where the loop goes after a response was sent or found unwanted. */
  function AfterResponse(draining: bool): Loop {
    if draining then Draining else EndingProcess
  }

  /** Puts a response in a call's one-slot channel; if it is full the response is dropped. */
  function Deliver(cs: Callers, c: nat, r: Response): Callers
    requires c < |cs.calls|
  {
    if cs.calls[c].slot.Some? then cs else cs.(calls := cs.calls[c := cs.calls[c].(slot := Some(r))])
  }

  /** One round of the drain: discards a message, which is answered if it is a call's, or finds the mailbox empty. */
  function Drain(q: Queue): Queue {
    if q.mailbox == [] then q.(loop := Closing)
    else
      var m := q.mailbox[0];
      q.(mailbox := q.mailbox[1..], discarded := q.discarded + [m],
         loop := if Session(m) == 0 then Draining else Responding(m, ShuttingDown, true))
  }

  function ApplyLoop(s: State, e: LoopEvent): Option<State> {
    var q, cs, ctl := s.q, s.cs, s.ctl;
    match e
    case StartLoop =>
      if ctl.state != Idle || !q.loop.NotStarted? then None else Some(s.(q := q.(loop := Receiving)))
    case LoopReceive =>
      if !q.loop.Receiving? || q.mailbox == [] then None else
        Some(s.(q := q.(mailbox := q.mailbox[1..], loop := Received(q.mailbox[0]), processed := q.processed + [q.mailbox[0]])))
    case ProcessBegin =>
      if !q.loop.Received? then None else
        Some(s.(ctl := ctl.(state := Running),
                q := q.(messagesProcessed := (q.messagesProcessed + 1) % TWO_64, loop := Handling(q.loop.msg))))
    case HandlerReturns(reply) =>
      if !q.loop.Handling? || reply.ShuttingDown? then None
      else if Session(q.loop.msg) == 0 then Some(s.(q := q.(loop := EndingProcess)))
      else Some(s.(q := q.(loop := Responding(q.loop.msg, reply, false)),
                   cs := cs.(replies := cs.replies[q.loop.msg.call := reply])))
    case ResponseLookup =>
      if !q.loop.Responding? then None else
        var session := Session(q.loop.msg);
        Some(s.(q := q.(loop := if session in cs.pending
                                then Delivering(q.loop.msg, cs.pending[session], q.loop.reply, q.loop.draining)
                                else AfterResponse(q.loop.draining))))
    case ResponseDeliver =>
      if !(q.loop.Delivering? && q.loop.target < |cs.calls| && q.loop.msg.CallMsg?) then None else
        Some(s.(q := q.(loop := AfterResponse(q.loop.draining)),
                cs := Deliver(cs, q.loop.target, Response(q.loop.msg.call, q.loop.msg.session, q.loop.reply))))
    case ProcessEnd =>
      if !q.loop.EndingProcess? then None else Some(s.(ctl := ctl.(state := Idle), q := q.(loop := Receiving)))
    case LoopSeesDone =>
      if !q.loop.Receiving? || !ctl.cancelled then None else Some(s.(q := q.(loop := Draining)))
    case DrainNext =>
      if !q.loop.Draining? then None else Some(s.(q := Drain(q)))
    case CloseMailbox =>
      if !q.loop.Closing? then None else Some(s.(q := q.(loop := Closed)))
  }

  function ApplyStop(s: State, e: StopEvent): Option<State> {
    var ctl := s.ctl;
    if e.StopBegin? then
      Some(s.(ctl := if ctl.state == Idle then ctl.(state := Stopping, stops := ctl.stops + [Cancelling])
                     else ctl.(stops := ctl.stops + [SecondTry])))
    else if e.stop >= |ctl.stops| then None
    else
      var i := e.stop;
      match e
      case StopRetry(_) =>
        if !ctl.stops[i].SecondTry? then None else
          Some(s.(ctl := if ctl.state == Running then ctl.(state := Stopping, stops := ctl.stops[i := Cancelling])
                         else ctl.(stops := ctl.stops[i := StopRefused])))
      case StopCancel(_) =>
        if !ctl.stops[i].Cancelling? then None else
          Some(s.(ctl := ctl.(cancelled := true, stops := ctl.stops[i := AwaitingLoop])))
      case StopReturn(_) =>
        if !ctl.stops[i].AwaitingLoop? || !(s.q.loop.Closed? || s.q.loop.NotStarted?) then None else
          Some(s.(ctl := ctl.(state := Stopped, stops := ctl.stops[i := StopReturned])))
  }

  /** The effect of one event, if it is enabled. */
  function Apply(s: State, e: Event): Option<State> {
    match e
    case OfSender(send) => ApplySend(s, send)
    case OfCaller(caller) => ApplyCall(s, caller)
    case OfLoop(step) => ApplyLoop(s, step)
    case OfStopper(stopper) => ApplyStop(s, stopper)
  }

  /** The state after a sequence of events, if each was enabled in its turn. */
  function Exec(s: State, es: seq<Event>): Option<State>
    decreases |es|
  {
    if es == [] then Some(s) else
      match Apply(s, es[0])
      case None => None
      case Some(s') => Exec(s', es[1..])
  }

  lemma {:induction false} ExecConcat(s: State, es: seq<Event>, t: State, more: seq<Event>)
    requires Exec(s, es) == Some(t)
    ensures Exec(s, es + more) == Exec(t, more)
    decreases |es|
  {
    if es == [] {
      assert es + more == more;
    } else {
      assert (es + more)[1..] == es[1..] + more;
      ExecConcat(Apply(s, es[0]).value, es[1..], t, more);
    }
  }

  lemma ExecSnoc(s: State, es: seq<Event>, t: State, e: Event)
    requires Exec(s, es) == Some(t)
    ensures Exec(s, es + [e]) == Apply(t, e)
  {
    ExecConcat(s, es, t, [e]);
    assert Exec(t, [e]) == match Apply(t, e) case None => None case Some(t') => Exec(t', []);
  }

  /** The states passed through, one event apart. */
  ghost predicate IsHistory(states: seq<State>, events: seq<Event>) {
    && |states| == |events| + 1
    && forall i {:trigger events[i]} :: 0 <= i < |events| ==> Apply(states[i], events[i]) == Some(states[i + 1])
  }

  lemma {:induction false} HistoryIsRun(states: seq<State>, events: seq<Event>)
    requires IsHistory(states, events)
    ensures Exec(states[0], events) == Some(states[|events|])
    decreases |events|
  {
    if events != [] {
      assert Apply(states[0], events[0]) == Some(states[1]);
      HistoryIsRun(states[1..], events[1..]);
    }
  }
}
