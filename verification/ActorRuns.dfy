/** What every interleaving of the actor's steps keeps. */
module ActorRuns {
  import opened Basics
  import opened ActorProtocol

  predicate InHand(l: Loop) {
    l.Received? || l.Handling? || l.Responding? || l.Delivering?
  }

  /** Number of accepted messages the loop has taken and is done with. */
  function Settled(q: Queue): int {
    |q.processed| + |q.discarded| - if InHand(q.loop) then 1 else 0
  }

  /** Accepted messages are processed, then discarded, then still queued, in the order they were accepted. */
  ghost predicate Fifo(q: Queue) {
    q.accepted == q.processed + q.discarded + q.mailbox
  }

  ghost predicate Counted(q: Queue) {
    && |q.mailbox| <= q.capacity
    && q.messagesProcessed == (|q.processed| - if q.loop.Received? then 1 else 0) % TWO_64
  }

  predicate EndsWith(ms: seq<Msg>, m: Msg) {
    ms != [] && ms[|ms| - 1] == m
  }

  /** The message in the loop's hands is the last one it took; discarding begins only after processing ended. */
  ghost predicate LoopOk(q: Queue) {
    match q.loop
    case NotStarted => q.processed == [] && q.discarded == []
    case Receiving => q.discarded == []
    case EndingProcess => q.discarded == []
    case Received(m) => q.discarded == [] && EndsWith(q.processed, m)
    case Handling(m) => q.discarded == [] && EndsWith(q.processed, m)
    case Responding(m, _, draining) => TakenLast(q, m, draining)
    case Delivering(m, _, _, draining) => TakenLast(q, m, draining)
    case _ => true
  }

  ghost predicate TakenLast(q: Queue, m: Msg, draining: bool) {
    m.CallMsg? && if draining then EndsWith(q.discarded, m) else q.discarded == [] && EndsWith(q.processed, m)
  }

  ghost predicate QueueOk(q: Queue) {
    Fifo(q) && Counted(q) && LoopOk(q)
  }

  /** Sessions are drawn in order, and the pending table holds exactly the calls that have not returned. */
  ghost predicate PendingOk(cs: Callers) {
    && cs.counter == |cs.calls| < TWO_32
    && (forall c :: 0 <= c < |cs.calls| ==> cs.calls[c].session == c + 1)
    && (forall k :: k in cs.pending ==>
          1 <= k <= |cs.calls| && cs.pending[k] == k - 1 && !cs.calls[k - 1].phase.Returned?)
    && (forall c :: 0 <= c < |cs.calls| && !cs.calls[c].phase.Returned? ==> c + 1 in cs.pending)
  }

  /** Every accepted call message belongs to its call, which remembers the place. */
  ghost predicate AcceptedOk(q: Queue, cs: Callers) {
    forall i :: 0 <= i < |q.accepted| && q.accepted[i].CallMsg? ==>
      var c := q.accepted[i].call;
      c < |cs.calls| && q.accepted[i] == MsgOf(cs, c) && cs.calls[c].acceptedAt == Some(i)
  }

  /** The reply being sent is the handler's for the message in hand, or the shutdown error while draining. */
  ghost predicate ReplyOk(l: Loop, cs: Callers) {
    && (l.Responding? || l.Delivering? ==>
          l.msg.CallMsg? &&
          if l.draining then l.reply.ShuttingDown? else l.msg.call in cs.replies && cs.replies[l.msg.call] == l.reply)
    && (l.Delivering? ==> l.target == l.msg.call)
  }

  /** `r` answers call `c`: with what the handler returned for it, or with the shutdown error if it was discarded. */
  ghost predicate Answers(q: Queue, cs: Callers, c: nat, r: Response)
    requires c < |cs.calls|
  {
    && cs.calls[c].acceptedAt.Some? && cs.calls[c].acceptedAt.value < Settled(q)
    && r.origin == c && r.session == cs.calls[c].session
    && if cs.calls[c].acceptedAt.value < |q.processed|
       then c in cs.replies && r.reply == cs.replies[c]
       else r.reply.ShuttingDown?
  }

  ghost predicate CallOk(q: Queue, cs: Callers, c: nat)
    requires c < |cs.calls|
  {
    var call := cs.calls[c];
    && (call.phase.Begun? || call.phase.Checked? ==> call.acceptedAt.None?)
    && (call.phase.Waiting? ==> call.acceptedAt.Some?)
    && (call.acceptedAt.Some? ==> call.acceptedAt.value < |q.accepted| && q.accepted[call.acceptedAt.value] == MsgOf(cs, c))
    && (call.slot.Some? ==> Answers(q, cs, c, call.slot.value))
    && (call.phase.Waiting? && call.acceptedAt.value < Settled(q) ==> call.slot.Some?)
    && ((call.phase.Leaving? || call.phase.Returned?) && call.phase.result.Replied? ==> Answers(q, cs, c, call.phase.result.resp))
  }

  ghost predicate CallsOk(q: Queue, cs: Callers) {
    forall c :: 0 <= c < |cs.calls| ==> CallOk(q, cs, c)
  }

  /** A returned Stop found the loop closed or never started, and the actor is stopped from then on. */
  ghost predicate StopsOk(l: Loop, ctl: Control) {
    forall i :: 0 <= i < |ctl.stops| ==>
      && ((ctl.stops[i].Cancelling? || ctl.stops[i].AwaitingLoop?) && l.NotStarted? ==> NotRunningNow(ctl))
      && (ctl.stops[i].StopReturned? ==> ctl.state == Stopped && (l.Closed? || l.NotStarted?))
  }

  ghost predicate Inv(s: State) {
    && QueueOk(s.q) && PendingOk(s.cs) && ReplyOk(s.q.loop, s.cs)
    && AcceptedOk(s.q, s.cs) && CallsOk(s.q, s.cs) && StopsOk(s.q.loop, s.ctl)
  }

  lemma InitInv(capacity: nat)
    ensures Inv(Init(capacity))
  {
  }

  /** Only call `c` may change, and the loop may settle one more message, which is `c`'s or a plain one. */
  lemma CallsMove(q: Queue, cs: Callers, q': Queue, cs': Callers, c: int)
    requires CallsOk(q, cs)
    requires |cs.calls| <= |cs'.calls| && q.accepted <= q'.accepted
    requires forall k :: 0 <= k < |cs.calls| && k != c ==> cs'.calls[k] == cs.calls[k]
    requires forall k :: 0 <= k < |cs'.calls| && (k == c || k >= |cs.calls|) ==> CallOk(q', cs', k)
    requires q'.processed == q.processed || (q.processed <= q'.processed && Settled(q) <= |q.processed|)
    requires forall k :: k in cs.replies && k != c ==> k in cs'.replies && cs'.replies[k] == cs.replies[k]
    requires Settled(q) <= Settled(q') <= Settled(q) + 1
    requires Settled(q') > Settled(q) ==>
               0 <= Settled(q) < |q.accepted| && (q.accepted[Settled(q)].Plain? || q.accepted[Settled(q)].call == c)
    ensures CallsOk(q', cs')
  {
    forall k | 0 <= k < |cs'.calls| ensures CallOk(q', cs', k) {
      if k != c && k < |cs.calls| { assert CallOk(q, cs, k); }
    }
  }

  /** The message in hand is the first unsettled one. */
  lemma HandIsNext(q: Queue)
    requires Fifo(q) && LoopOk(q) && InHand(q.loop)
    ensures 0 <= Settled(q) < |q.accepted| && q.accepted[Settled(q)] == q.loop.msg
  {
  }

  lemma HandIsItsCall(s: State)
    requires Inv(s) && InHand(s.q.loop) && s.q.loop.msg.CallMsg?
    ensures var c := s.q.loop.msg.call;
      && c < |s.cs.calls| && s.q.loop.msg == MsgOf(s.cs, c) && CallOk(s.q, s.cs, c)
      && s.cs.calls[c].acceptedAt == Some(Settled(s.q)) && s.cs.calls[c].slot.None? && s.q.loop.msg.session == c + 1
  {
    HandIsNext(s.q);
    assert s.q.accepted[Settled(s.q)].CallMsg?;
    assert CallOk(s.q, s.cs, s.q.loop.msg.call);
  }

  // ---- preservation ----

  lemma SendKeeps(s: State, e: SendEvent, s': State)
    requires Inv(s) && ApplySend(s, e) == Some(s')
    ensures Inv(s')
  {
    CallsMove(s.q, s.cs, s'.q, s'.cs, -1);
  }

  lemma BeginKeepsPending(cs: Callers, payload: int)
    requires PendingOk(cs) && |cs.calls| + 1 < TWO_32
    ensures PendingOk(BeginCall(cs, payload))
  {
  }

  /** Changing one call that has not returned and stays so. */
  lemma PhaseKeepsPending(cs: Callers, c: nat, call: CallRec)
    requires PendingOk(cs) && c < |cs.calls|
    requires call.session == cs.calls[c].session && !call.phase.Returned? && !cs.calls[c].phase.Returned?
    ensures PendingOk(cs.(calls := cs.calls[c := call]))
  {
  }

  lemma ReturnKeepsPending(cs: Callers, c: nat, r: CallResult)
    requires PendingOk(cs) && c < |cs.calls|
    ensures PendingOk(SetPhase(cs, c, Returned(r)).(pending := cs.pending - {cs.calls[c].session}))
  {
  }

  lemma CallKeepsPending(s: State, e: CallEvent, s': State)
    requires PendingOk(s.cs) && ApplyCall(s, e) == Some(s') && |s'.cs.calls| < TWO_32
    ensures PendingOk(s'.cs)
  {
    match e
    case CallBegin(payload) => BeginKeepsPending(s.cs, payload);
    case CallReturn(c) => ReturnKeepsPending(s.cs, c, s.cs.calls[c].phase.result);
    case _ => PhaseKeepsPending(s.cs, e.call, s'.cs.calls[e.call]);
  }

  lemma AcceptKeepsCalls(s: State, c: nat, s': State)
    requires Inv(s) && ApplyCall(s, CallSelect(c, Accept)) == Some(s')
    ensures AcceptedOk(s'.q, s'.cs) && CallsOk(s'.q, s'.cs)
  {
    assert CallOk(s.q, s.cs, c);
    CallsMove(s.q, s.cs, s'.q, s'.cs, c);
  }

  /** Replacing one call's phase and slot, with the queue as it was. */
  lemma OneCallKeeps(q: Queue, cs: Callers, cs': Callers, c: nat)
    requires AcceptedOk(q, cs) && CallsOk(q, cs) && c < |cs.calls| == |cs'.calls|
    requires cs'.calls == cs.calls[c := cs.calls[c].(phase := cs'.calls[c].phase, slot := cs'.calls[c].slot)]
    requires cs'.replies == cs.replies && CallOk(q, cs', c)
    ensures AcceptedOk(q, cs') && CallsOk(q, cs')
  {
    CallsMove(q, cs, q, cs', c);
  }

  lemma BeginKeepsCalls(q: Queue, cs: Callers, payload: int)
    requires AcceptedOk(q, cs) && CallsOk(q, cs)
    ensures AcceptedOk(q, BeginCall(cs, payload)) && CallsOk(q, BeginCall(cs, payload))
  {
    CallsMove(q, cs, q, BeginCall(cs, payload), -1);
  }

  /** Every other caller step leaves the queue and the accepted messages alone. */
  lemma CallerKeepsCalls(s: State, e: CallEvent, s': State)
    requires Inv(s) && ApplyCall(s, e) == Some(s') && !(e.CallSelect? && e.choice.Accept?)
    ensures AcceptedOk(s'.q, s'.cs) && CallsOk(s'.q, s'.cs)
  {
    if e.CallBegin? {
      BeginKeepsCalls(s.q, s.cs, e.payload);
    } else {
      assert CallOk(s.q, s.cs, e.call);
      OneCallKeeps(s.q, s.cs, s'.cs, e.call);
    }
  }

  lemma CallKeeps(s: State, e: CallEvent, s': State)
    requires Inv(s) && ApplyCall(s, e) == Some(s') && |s'.cs.calls| < TWO_32
    ensures Inv(s')
  {
    CallKeepsPending(s, e, s');
    if e.CallSelect? && e.choice.Accept? {
      AcceptKeepsCalls(s, e.call, s');
    } else {
      CallerKeepsCalls(s, e, s');
    }
  }

  lemma StopKeepsStops(s: State, e: StopEvent, s': State)
    requires StopsOk(s.q.loop, s.ctl) && ApplyStop(s, e) == Some(s')
    ensures StopsOk(s'.q.loop, s'.ctl) && s'.q == s.q && s'.cs == s.cs
  {
  }

  lemma LoopKeepsFifo(s: State, e: LoopEvent, s': State)
    requires QueueOk(s.q) && ApplyLoop(s, e) == Some(s')
    ensures Fifo(s'.q)
  {
    if s.q.mailbox != [] { assert s.q.mailbox == [s.q.mailbox[0]] + s.q.mailbox[1..]; }
  }

  lemma LoopKeepsCount(s: State, e: LoopEvent, s': State)
    requires Counted(s.q) && ApplyLoop(s, e) == Some(s')
    ensures Counted(s'.q)
  {
  }

  lemma LoopKeepsLoop(s: State, e: LoopEvent, s': State)
    requires QueueOk(s.q) && ApplyLoop(s, e) == Some(s')
    ensures LoopOk(s'.q)
  {
  }

  lemma LoopKeepsReply(s: State, e: LoopEvent, s': State)
    requires Inv(s) && ApplyLoop(s, e) == Some(s')
    ensures ReplyOk(s'.q.loop, s'.cs)
  {
    if InHand(s.q.loop) && s.q.loop.msg.CallMsg? { HandIsItsCall(s); }
  }

  /** Steps of the loop that neither take nor finish a message. */
  lemma LoopIdleKeepsCalls(s: State, e: LoopEvent, s': State)
    requires Inv(s) && ApplyLoop(s, e) == Some(s')
    requires e.StartLoop? || e.ProcessBegin? || e.ProcessEnd? || e.LoopSeesDone? || e.CloseMailbox?
    ensures AcceptedOk(s'.q, s'.cs) && CallsOk(s'.q, s'.cs)
  {
    CallsMove(s.q, s.cs, s'.q, s'.cs, -1);
  }

  /** Taking a message settles nothing, unless it is a plain one discarded at once. */
  lemma TakeKeepsCalls(s: State, e: LoopEvent, s': State)
    requires Inv(s) && ApplyLoop(s, e) == Some(s') && (e.LoopReceive? || e.DrainNext?)
    ensures AcceptedOk(s'.q, s'.cs) && CallsOk(s'.q, s'.cs)
  {
    if s.q.mailbox != [] { assert s.q.accepted[Settled(s.q)] == s.q.mailbox[0]; }
    CallsMove(s.q, s.cs, s'.q, s'.cs, -1);
  }

  lemma HandlerKeepsCalls(s: State, reply: Reply, s': State)
    requires Inv(s) && ApplyLoop(s, HandlerReturns(reply)) == Some(s')
    ensures AcceptedOk(s'.q, s'.cs) && CallsOk(s'.q, s'.cs)
  {
    HandIsNext(s.q);
    if s.q.loop.msg.CallMsg? { HandIsItsCall(s); }
    CallsMove(s.q, s.cs, s'.q, s'.cs, if s.q.loop.msg.CallMsg? then s.q.loop.msg.call else -1);
  }

  lemma ResponseKeepsCalls(s: State, e: LoopEvent, s': State)
    requires Inv(s) && ApplyLoop(s, e) == Some(s') && (e.ResponseLookup? || e.ResponseDeliver?)
    ensures AcceptedOk(s'.q, s'.cs) && CallsOk(s'.q, s'.cs)
  {
    HandIsNext(s.q);
    HandIsItsCall(s);
    CallsMove(s.q, s.cs, s'.q, s'.cs, s.q.loop.msg.call);
  }

  lemma LoopKeepsPending(s: State, e: LoopEvent, s': State)
    requires PendingOk(s.cs) && ApplyLoop(s, e) == Some(s')
    ensures PendingOk(s'.cs)
  {
  }

  lemma LoopKeeps(s: State, e: LoopEvent, s': State)
    requires Inv(s) && ApplyLoop(s, e) == Some(s')
    ensures Inv(s')
  {
    LoopKeepsFifo(s, e, s');
    LoopKeepsCount(s, e, s');
    LoopKeepsLoop(s, e, s');
    LoopKeepsReply(s, e, s');
    LoopKeepsPending(s, e, s');
    LoopKeepsStops(s, e, s');
    match e
    case HandlerReturns(reply) => HandlerKeepsCalls(s, reply, s');
    case ResponseLookup => ResponseKeepsCalls(s, e, s');
    case ResponseDeliver => ResponseKeepsCalls(s, e, s');
    case LoopReceive => TakeKeepsCalls(s, e, s');
    case DrainNext => TakeKeepsCalls(s, e, s');
    case _ => LoopIdleKeepsCalls(s, e, s');
  }

  lemma LoopKeepsStops(s: State, e: LoopEvent, s': State)
    requires StopsOk(s.q.loop, s.ctl) && ApplyLoop(s, e) == Some(s')
    ensures StopsOk(s'.q.loop, s'.ctl)
  {
  }

  lemma StepKeepsInv(s: State, e: Event, s': State)
    requires Inv(s) && Apply(s, e) == Some(s') && |s'.cs.calls| < TWO_32
    ensures Inv(s')
  {
    match e
    case OfSender(send) => SendKeeps(s, send, s');
    case OfCaller(caller) => CallKeeps(s, caller, s');
    case OfLoop(step) => LoopKeeps(s, step, s');
    case OfStopper(stopper) => StopKeepsStops(s, stopper, s');
  }

  // ---- whole runs ----

  lemma CallsGrow(s: State, e: Event, s': State)
    requires Apply(s, e) == Some(s')
    ensures |s.cs.calls| <= |s'.cs.calls|
  {
  }

  lemma {:induction false} CallsOnlyGrow(s: State, es: seq<Event>, t: State)
    requires Exec(s, es) == Some(t)
    ensures |s.cs.calls| <= |t.cs.calls|
    decreases |es|
  {
    if es != [] {
      var s' := Apply(s, es[0]).value;
      CallsGrow(s, es[0], s');
      CallsOnlyGrow(s', es[1..], t);
    }
  }

  /** Every run with fewer than 2^32 calls keeps the invariant. */
  lemma {:induction false} EveryRun(s: State, es: seq<Event>, t: State)
    requires Inv(s) && Exec(s, es) == Some(t) && |t.cs.calls| < TWO_32
    ensures Inv(t)
    decreases |es|
  {
    if es != [] {
      var s' := Apply(s, es[0]).value;
      CallsOnlyGrow(s', es[1..], t);
      StepKeepsInv(s, es[0], s');
      EveryRun(s', es[1..], t);
    }
  }

  lemma Reached(capacity: nat, es: seq<Event>, t: State)
    requires Exec(Init(capacity), es) == Some(t) && |t.cs.calls| < TWO_32
    ensures Inv(t)
  {
    InitInv(capacity);
    EveryRun(Init(capacity), es, t);
  }

  lemma PutKeepsQueue(q: Queue, m: Msg)
    requires QueueOk(q) && |q.mailbox| < q.capacity
    ensures QueueOk(Put(q, m)) && Put(q, m).loop == q.loop
  {
  }

  lemma CallKeepsQueue(s: State, e: CallEvent, s': State)
    requires QueueOk(s.q) && ApplyCall(s, e) == Some(s')
    ensures QueueOk(s'.q) && s'.q.loop == s.q.loop && s'.ctl == s.ctl && s'.q.capacity == s.q.capacity
  {
    if e.CallSelect? && e.choice.Accept? { PutKeepsQueue(s.q, MsgOf(s.cs, e.call)); }
  }

  lemma StepKeepsQueue(s: State, e: Event, s': State)
    requires QueueOk(s.q) && StopsOk(s.q.loop, s.ctl) && Apply(s, e) == Some(s')
    ensures QueueOk(s'.q) && StopsOk(s'.q.loop, s'.ctl) && s'.q.capacity == s.q.capacity
  {
    match e
    case OfSender(send) =>
      if send.SendSelect? && send.choice.Accept? { PutKeepsQueue(s.q, Plain(send.payload)); }
    case OfCaller(caller) =>
      CallKeepsQueue(s, caller, s');
    case OfStopper(stopper) =>
      StopKeepsStops(s, stopper, s');
    case OfLoop(step) =>
      LoopKeepsFifo(s, step, s');
      LoopKeepsCount(s, step, s');
      LoopKeepsLoop(s, step, s');
      LoopKeepsStops(s, step, s');
  }

  lemma {:induction false} EveryRunKeepsQueue(s: State, es: seq<Event>, t: State)
    requires QueueOk(s.q) && StopsOk(s.q.loop, s.ctl) && Exec(s, es) == Some(t)
    ensures QueueOk(t.q) && StopsOk(t.q.loop, t.ctl) && t.q.capacity == s.q.capacity
    decreases |es|
  {
    if es != [] {
      var s' := Apply(s, es[0]).value;
      StepKeepsQueue(s, es[0], s');
      EveryRunKeepsQueue(s', es[1..], t);
    }
  }

  /** In every run, however many calls it makes: accepted messages are the processed ones, then those discarded
      while draining, then those still queued; the mailbox never exceeds its capacity; and the counter counts the
      processed ones, less one not yet begun. */
  lemma MailboxConserves(capacity: nat, es: seq<Event>, t: State)
    requires Exec(Init(capacity), es) == Some(t)
    ensures t.q.accepted == t.q.processed + t.q.discarded + t.q.mailbox
    ensures |t.q.mailbox| <= capacity
    ensures t.q.messagesProcessed == (|t.q.processed| - if t.q.loop.Received? then 1 else 0) % TWO_64
  {
    EveryRunKeepsQueue(Init(capacity), es, t);
  }

  /** The loop can take no more messages. */
  predicate Finished(s: State) {
    s.ctl.state == Stopped && (s.q.loop.Closed? || s.q.loop.NotStarted?)
  }

  lemma FinishedStep(s: State, e: Event, s': State)
    requires Finished(s) && Apply(s, e) == Some(s')
    ensures Finished(s') && s'.q.processed == s.q.processed && s'.q.messagesProcessed == s.q.messagesProcessed
  {
  }

  lemma {:induction false} FinishedStays(s: State, es: seq<Event>, t: State)
    requires Finished(s) && Exec(s, es) == Some(t)
    ensures Finished(t) && t.q.processed == s.q.processed && t.q.messagesProcessed == s.q.messagesProcessed
    decreases |es|
  {
    if es != [] {
      var s' := Apply(s, es[0]).value;
      FinishedStep(s, es[0], s');
      FinishedStays(s', es[1..], t);
    }
  }

  lemma StoppedIsFinished(capacity: nat, es: seq<Event>, s: State, i: nat)
    requires Exec(Init(capacity), es) == Some(s) && i < |s.ctl.stops| && s.ctl.stops[i].StopReturned?
    ensures Finished(s)
  {
    EveryRunKeepsQueue(Init(capacity), es, s);
  }

  /** After a Stop has returned, the actor stays stopped and nothing is processed any more, whatever else happens. */
  lemma StopIsFinal(capacity: nat, es: seq<Event>, s: State, i: nat, more: seq<Event>, t: State)
    requires Exec(Init(capacity), es) == Some(s) && i < |s.ctl.stops| && s.ctl.stops[i].StopReturned?
    requires Exec(s, more) == Some(t)
    ensures t.ctl.state == Stopped && t.q.processed == s.q.processed && t.q.messagesProcessed == s.q.messagesProcessed
  {
    StoppedIsFinished(capacity, es, s, i);
    FinishedStays(s, more, t);
  }

  predicate InMailbox(s: State, c: nat)
    requires c < |s.cs.calls|
  {
    MsgOf(s.cs, c) in s.q.mailbox
  }

  predicate WithLoop(s: State, c: nat)
    requires c < |s.cs.calls|
  {
    InHand(s.q.loop) && s.q.loop.msg == MsgOf(s.cs, c)
  }

  predicate Answered(s: State, c: nat)
    requires c < |s.cs.calls|
  {
    s.cs.calls[c].slot.Some?
  }

  predicate ExactlyOne(a: bool, b: bool, c: bool) {
    (a || b || c) && !(a && b) && !(b && c) && !(a && c)
  }

  /** The message of a waiting call is in exactly one place: queued, in the loop's hands, or answered. */
  lemma WaitingCallIsSomewhere(capacity: nat, es: seq<Event>, t: State, c: nat)
    requires Exec(Init(capacity), es) == Some(t) && |t.cs.calls| < TWO_32
    requires c < |t.cs.calls| && t.cs.calls[c].phase.Waiting?
    ensures ExactlyOne(InMailbox(t, c), WithLoop(t, c), Answered(t, c))
  {
    Reached(capacity, es, t);
    WaitingIsSomewhere(t, c);
  }

  lemma WaitingIsSomewhere(t: State, c: nat)
    requires Inv(t) && c < |t.cs.calls| && t.cs.calls[c].phase.Waiting?
    ensures ExactlyOne(InMailbox(t, c), WithLoop(t, c), Answered(t, c))
  {
    assert CallOk(t.q, t.cs, c);
    QueuedMeansNotTaken(t, c);
    if InHand(t.q.loop) { HandIsNext(t.q); }
  }

  lemma QueuedMeansNotTaken(t: State, c: nat)
    requires Inv(t) && c < |t.cs.calls| && t.cs.calls[c].acceptedAt.Some?
    ensures InMailbox(t, c) <==> t.cs.calls[c].acceptedAt.value >= |t.q.processed| + |t.q.discarded|
  {
    assert CallOk(t.q, t.cs, c);
    var at, taken := t.cs.calls[c].acceptedAt.value, |t.q.processed| + |t.q.discarded|;
    if at >= taken {
      assert t.q.mailbox[at - taken] == MsgOf(t.cs, c);
    }
    if InMailbox(t, c) {
      var j :| 0 <= j < |t.q.mailbox| && t.q.mailbox[j] == MsgOf(t.cs, c);
      assert t.q.accepted[taken + j] == MsgOf(t.cs, c);
    }
  }

  /** A call only ever returns the reply to its own message: what the handler returned for it, or the shutdown
      error when the message was discarded. */
  lemma CallGetsOwnReply(capacity: nat, es: seq<Event>, t: State, c: nat, r: Response)
    requires Exec(Init(capacity), es) == Some(t) && |t.cs.calls| < TWO_32
    requires c < |t.cs.calls| && t.cs.calls[c].phase == Returned(Replied(r))
    ensures r.origin == c && r.session == t.cs.calls[c].session
    ensures MsgOf(t.cs, c) in t.q.processed + t.q.discarded
    ensures MsgOf(t.cs, c) in t.q.processed ==> c in t.cs.replies && r.reply == t.cs.replies[c]
    ensures MsgOf(t.cs, c) in t.q.discarded ==> r.reply.ShuttingDown?
  {
    Reached(capacity, es, t);
    ReplyIsOwn(t, c, r);
  }

  lemma ReplyIsOwn(t: State, c: nat, r: Response)
    requires Inv(t) && c < |t.cs.calls| && t.cs.calls[c].phase == Returned(Replied(r))
    ensures r.origin == c && r.session == t.cs.calls[c].session
    ensures MsgOf(t.cs, c) in t.q.processed + t.q.discarded
    ensures MsgOf(t.cs, c) in t.q.processed ==> c in t.cs.replies && r.reply == t.cs.replies[c]
    ensures MsgOf(t.cs, c) in t.q.discarded ==> r.reply.ShuttingDown?
  {
    assert CallOk(t.q, t.cs, c);
    var m, at := MsgOf(t.cs, c), t.cs.calls[c].acceptedAt.value;
    assert (t.q.processed + t.q.discarded)[at] == m;
    if m in t.q.processed {
      var j :| 0 <= j < |t.q.processed| && t.q.processed[j] == m;
      assert t.q.accepted[j] == m;
    }
    if m in t.q.discarded {
      var j :| 0 <= j < |t.q.discarded| && t.q.discarded[j] == m;
      assert t.q.accepted[|t.q.processed| + j] == m;
    }
  }

  /** sendResponse never meets a full channel, and always delivers to the call whose message it answers. */
  lemma ChannelIsNeverFull(capacity: nat, es: seq<Event>, t: State)
    requires Exec(Init(capacity), es) == Some(t) && |t.cs.calls| < TWO_32
    ensures t.q.loop.Delivering? ==>
      t.q.loop.target < |t.cs.calls| && t.q.loop.msg == MsgOf(t.cs, t.q.loop.target) && t.cs.calls[t.q.loop.target].slot.None?
  {
    Reached(capacity, es, t);
    if t.q.loop.Delivering? { HandIsItsCall(t); }
  }
}
