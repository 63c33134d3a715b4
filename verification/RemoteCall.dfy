/** Remote calls between cluster nodes over a network that may drop, duplicate and reorder messages. */
module RemoteCall {
  import opened Basics
  import opened CallIds

  type Service = string

  /** A JSON value; Nil is what an absent result decodes to. */
  datatype Value = Nil | Data(text: string)

  /** Where a call is addressed: a service on a node. */
  datatype Ref = Ref(node: NodeId, service: Service)

  /** What a handler returned. */
  datatype Outcome = Result(value: Value) | Error(text: string)

  datatype Request = Request(callId: CallId, service: Service, args: Value)

  datatype Reply = Reply(callId: CallId, result: Value, error: string)

  datatype Packet = CallPacket(from: NodeId, to: NodeId, req: Request) | ReplyPacket(from: NodeId, to: NodeId, rep: Reply)

  /** How a call ended. An error text reaches the caller as the format string of an error. */
  datatype Return = GotResult(value: Value) | GotError(format: string) | SerializeFailed | SendFailed | Cancelled | TimedOut

  datatype Phase = Sending | Waiting | Leaving(ret: Return) | Returned(ret: Return)

  /** One call with its two one-slot channels. */
  datatype CallRec = CallRec(id: CallId, ref: Ref, args: Value, phase: Phase, result: Option<Value>, error: Option<string>)

  /** A request answered by a node: `ran` tells a handler's execution from a missing-handler report. */
  datatype Answer = Answer(ref: Ref, callId: CallId, args: Value, ran: bool, outcome: Outcome)

  /** One node's remote service: `held` are replies that found their pending call and are not yet delivered. */
  datatype Node = Node(
    id: NodeId,
    counter: int64,
    handlers: set<Service>,
    pending: map<CallId, nat>,
    calls: seq<CallRec>,
    held: multiset<(nat, Reply)>)

  function EncodeOutcome(id: CallId, o: Outcome): Reply {
    match o
    case Result(v) => Reply(id, v, "")
    case Error(t) => Reply(id, Nil, t)
  }

  /** How the caller reads a reply. */
  function ReadBack(r: Reply): Return {
    if r.error != "" then GotError(r.error) else GotResult(r.result)
  }

  /** What the caller should read for an outcome. */
  function Faithful(o: Outcome): Return {
    match o
    case Result(v) => GotResult(v)
    case Error(t) => GotError(t)
  }

  /** A reply is read back as what the handler returned, except that an error with empty text reads as a nil result. */
  lemma ReadBackIsFaithful(id: CallId, o: Outcome)
    ensures ReadBack(EncodeOutcome(id, o)) == Faithful(o) <==> o != Error("")
    ensures ReadBack(EncodeOutcome(id, Error(""))) == GotResult(Nil)
  {
  }

  function MissingHandler(service: Service): Outcome {
    Error("service not found: " + service)
  }

  // ---- what one node does ----

  datatype NodeEvent =
    | Register(service: Service)
    | Unregister(service: Service)
    | CallBegin(ref: Ref, args: Value)
    | CallUnserializable(ref: Ref, args: Value)
    | CallSend(call: nat)
    | CallSendFails(call: nat, leaked: bool)   // the transport reports an error, maybe after sending
    | HandleCall(from: NodeId, req: Request, outcome: Outcome)
    | HandleReply(rep: Reply)
    | DeliverReply(call: nat, rep: Reply)
    | CallTakeResult(call: nat)
    | CallTakeError(call: nat)
    | CallCancel(call: nat)
    | CallTimeout(call: nat)
    | CallReturn(call: nat)

  /** A node's step: its new state, the packets it sends and the answers it computes. */
  datatype Effect = Effect(node: Node, sent: set<Packet>, answers: set<Answer>)

  function NextCounter(n: Node): int64 {
    if n.counter == TWO_63 - 1 then -TWO_63 else n.counter + 1
  }

  function NewCall(n: Node, ref: Ref, args: Value, phase: Phase): CallRec {
    CallRec(MakeCallId(n.id, NextCounter(n)), ref, args, phase, None, None)
  }

  function RequestOf(call: CallRec): Request {
    Request(call.id, call.ref.service, call.args)
  }

  function SetCall(n: Node, c: nat, call: CallRec): Node
    requires c < |n.calls|
  {
    n.(calls := n.calls[c := call])
  }

  function Quiet(n: Node): Effect {
    Effect(n, {}, {})
  }

  function AnswerTo(n: Node, req: Request, outcome: Outcome): Answer {
    var ran := req.service in n.handlers;
    Answer(Ref(n.id, req.service), req.callId, req.args, ran, if ran then outcome else MissingHandler(req.service))
  }

  /** Puts a reply into the channel it belongs to, unless that channel is already full. */
  function Deliver(call: CallRec, rep: Reply): CallRec {
    match ReadBack(rep)
    case GotError(t) => if call.error.None? then call.(error := Some(t)) else call
    case GotResult(v) => if call.result.None? then call.(result := Some(v)) else call
  }

  /** Steps of one call after it was begun. */
  function CallStep(n: Node, c: nat, e: NodeEvent): Option<Effect>
    requires c < |n.calls|
  {
    var call := n.calls[c];
    var packet := CallPacket(n.id, call.ref.node, RequestOf(call));
    match e
    case CallSend(_) =>
      if !call.phase.Sending? then None else Some(Effect(SetCall(n, c, call.(phase := Waiting)), {packet}, {}))
    case CallSendFails(_, leaked) =>
      if !call.phase.Sending? then None else
        Some(Effect(SetCall(n, c, call.(phase := Leaving(SendFailed))), if leaked then {packet} else {}, {}))
    case DeliverReply(_, rep) =>
      if (c, rep) !in n.held then None else Some(Quiet(SetCall(n, c, Deliver(call, rep)).(held := n.held - multiset{(c, rep)})))
    case CallTakeResult(_) =>
      if !call.phase.Waiting? || call.result.None? then None else
        Some(Quiet(SetCall(n, c, call.(phase := Leaving(GotResult(call.result.value)), result := None))))
    case CallTakeError(_) =>
      if !call.phase.Waiting? || call.error.None? then None else
        Some(Quiet(SetCall(n, c, call.(phase := Leaving(GotError(call.error.value)), error := None))))
    case CallCancel(_) =>
      if !call.phase.Waiting? then None else Some(Quiet(SetCall(n, c, call.(phase := Leaving(Cancelled)))))
    case CallTimeout(_) =>
      if !call.phase.Waiting? then None else Some(Quiet(SetCall(n, c, call.(phase := Leaving(TimedOut)))))
    case CallReturn(_) =>
      if !call.phase.Leaving? then None else
        Some(Quiet(SetCall(n, c, call.(phase := Returned(call.phase.ret))).(pending := n.pending - {call.id})))
    case _ => None
  }

  function NodeStep(n: Node, e: NodeEvent): Option<Effect> {
    match e
    case Register(service) => Some(Quiet(n.(handlers := n.handlers + {service})))
    case Unregister(service) => Some(Quiet(n.(handlers := n.handlers - {service})))
    case CallBegin(ref, args) =>
      var call := NewCall(n, ref, args, Sending);
      Some(Quiet(n.(counter := NextCounter(n), calls := n.calls + [call], pending := n.pending[call.id := |n.calls|])))
    case CallUnserializable(ref, args) =>
      Some(Quiet(n.(counter := NextCounter(n), calls := n.calls + [NewCall(n, ref, args, Returned(SerializeFailed))])))
    case HandleCall(from, req, outcome) =>
      var answer := AnswerTo(n, req, outcome);
      Some(Effect(n, {ReplyPacket(n.id, from, EncodeOutcome(req.callId, answer.outcome))}, {answer}))
    case HandleReply(rep) =>
      Some(Quiet(if rep.callId in n.pending then n.(held := n.held + multiset{(n.pending[rep.callId], rep)}) else n))
    case _ => if e.call < |n.calls| then CallStep(n, e.call, e) else None
  }

  // ---- the cluster ----

  /** Everything ever sent stays available: it may be delivered late, often, in any order, or never. */
  datatype Cluster = Cluster(nodes: map<NodeId, Node>, network: set<Packet>, answers: set<Answer>)

  datatype Event = Event(at: NodeId, e: NodeEvent)

  function InitNode(id: NodeId): Node {
    Node(id, 0, {}, map[], [], multiset{})
  }

  function Init(ids: set<NodeId>): Cluster {
    Cluster(map id | id in ids :: InitNode(id), {}, {})
  }

  /** A message is only handled if it was sent to this node. */
  predicate Received(s: Cluster, at: NodeId, e: NodeEvent) {
    match e
    case HandleCall(from, req, _) => CallPacket(from, at, req) in s.network
    case HandleReply(rep) => exists p :: p in s.network && p.ReplyPacket? && p.to == at && p.rep == rep
    case _ => true
  }

  function Apply(s: Cluster, e: Event): Option<Cluster> {
    if e.at !in s.nodes || !Received(s, e.at, e.e) then None else
      match NodeStep(s.nodes[e.at], e.e)
      case None => None
      case Some(f) => Some(Cluster(s.nodes[e.at := f.node], s.network + f.sent, s.answers + f.answers))
  }

  function Exec(s: Cluster, es: seq<Event>): Option<Cluster>
    decreases |es|
  {
    if es == [] then Some(s) else
      match Apply(s, es[0])
      case None => None
      case Some(s') => Exec(s', es[1..])
  }
}
