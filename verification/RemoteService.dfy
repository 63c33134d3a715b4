/** One node's remote service object. Each method is one locked or atomic action and performs exactly the node event of
    RemoteCall named in its contract; so the object's history is a node's part of a cluster run. */
module RemoteService {
  import opened Basics
  import opened CallIds
  import opened RemoteCall
  import opened NodeRuns

  class RemoteService {
    const id: NodeId
    var callCounter: int64
    var handlers: set<Service>
    var pendingCalls: map<CallId, nat>
    var calls: seq<CallRec>
    var held: multiset<(nat, Reply)>
    ghost var events: seq<NodeEvent>
    ghost var nodes: seq<Node>

    ghost function Abs(): Node
      reads this
    {
      Node(id, callCounter, handlers, pendingCalls, calls, held)
    }

    /** The object is where the events so far have led. */
    ghost predicate Valid()
      reads this
    {
      IsHistory(nodes, events) && nodes[0] == InitNode(id) && nodes[|events|] == Abs()
    }

    /** What a method did since it was called: one event, sending packets and computing answers. */
    twostate predicate Performs(e: NodeEvent, sent: set<Packet>, answers: set<Answer>)
      reads this
    {
      NodeStep(old(Abs()), e) == Some(Effect(Abs(), sent, answers)) && events == old(events) + [e] && Valid()
    }

    twostate predicate Nothing()
      reads this
    {
      Abs() == old(Abs()) && events == old(events) && Valid()
    }

    ghost method Record(e: NodeEvent, before: Node)
      requires IsHistory(nodes, events) && nodes[0] == InitNode(id) && nodes[|events|] == before
      requires Steps(before, e, Abs())
      modifies this`events, this`nodes
      ensures events == old(events) + [e] && Valid() && Abs() == old(Abs())
    {
      events, nodes := events + [e], nodes + [Abs()];
    }

    /** Held replies and pending entries point at calls of their own id, whatever the network brought. */
    lemma TablesAreOk()
      requires Valid()
      ensures TablesOk(Abs())
    {
      EveryHistoryKeepsTables(nodes, events, |events|);
    }

    constructor (id: NodeId)
      ensures Valid() && Abs() == InitNode(id) && events == []
    {
      this.id := id;
      callCounter, handlers, pendingCalls, calls, held := 0, {}, map[], [], multiset{};
      events, nodes := [], [InitNode(id)];
    }

    method RegisterHandler(service: Service) returns (ok: bool)
      requires Valid()
      modifies this
      ensures ok == (service !in old(handlers))
      ensures if ok then Performs(Register(service), {}, {}) else Nothing()
    {
      if service in handlers { return false; }
      handlers := handlers + {service};
      Record(Register(service), old(Abs()));
      return true;
    }

    method UnregisterHandler(service: Service)
      requires Valid()
      modifies this
      ensures Performs(Unregister(service), {}, {})
    {
      handlers := handlers - {service};
      Record(Unregister(service), old(Abs()));
    }

    /** Atomically draws the next call number, wrapping like an int64. */
    method GenerateCallId() returns (callId: CallId)
      modifies this`callCounter
      ensures callCounter == NextCounter(old(Abs())) && callId == MakeCallId(id, callCounter)
    {
      callCounter := if callCounter == TWO_63 - 1 then -TWO_63 else callCounter + 1;
      callId := MakeCallId(id, callCounter);
    }

    /** Call up to the point where the pending entry is stored, or gives up because the message cannot be serialized. */
    method OpenCall(ref: Ref, args: Value, serializable: bool) returns (c: nat)
      requires Valid()
      modifies this
      ensures c == |old(calls)|
      ensures Performs(if serializable then CallBegin(ref, args) else CallUnserializable(ref, args), {}, {})
    {
      c := |calls|;
      var callId := GenerateCallId();
      if serializable {
        calls := calls + [CallRec(callId, ref, args, Sending, None, None)];
        pendingCalls := pendingCalls[callId := c];
      } else {
        calls := calls + [CallRec(callId, ref, args, Returned(SerializeFailed), None, None)];
      }
      Record(if serializable then CallBegin(ref, args) else CallUnserializable(ref, args), old(Abs()));
    }

    /** Hands the request to the transport, which may report an error, possibly after sending. */
    method SendRequest(c: nat, transportOk: bool, leaked: bool) returns (sent: set<Packet>)
      requires Valid() && c < |calls| && calls[c].phase.Sending?
      modifies this
      ensures Performs(if transportOk then CallSend(c) else CallSendFails(c, leaked), sent, {})
    {
      var call := calls[c];
      var packet := CallPacket(id, call.ref.node, Request(call.id, call.ref.service, call.args));
      calls := calls[c := call.(phase := if transportOk then Waiting else Leaving(SendFailed))];
      sent := if transportOk || leaked then {packet} else {};
      Record(if transportOk then CallSend(c) else CallSendFails(c, leaked), old(Abs()));
    }

    /** Answers a request; `outcome` is what the handler returns if there is one. */
    method HandleRemoteCall(from: NodeId, req: Request, outcome: Outcome) returns (reply: Packet, answer: Answer)
      requires Valid()
      modifies this`events, this`nodes
      ensures Performs(HandleCall(from, req, outcome), {reply}, {answer})
      ensures answer.ran == (req.service in handlers)
      ensures reply == ReplyPacket(id, from, match (if answer.ran then outcome else Error("service not found: " + req.service))
                                             case Result(v) => Reply(req.callId, v, "")
                                             case Error(t) => Reply(req.callId, Nil, t))
    {
      var result;
      if req.service !in handlers {
        result := Error("service not found: " + req.service);
      } else {
        result := outcome;
      }
      answer := Answer(Ref(id, req.service), req.callId, req.args, req.service in handlers, result);
      var rep;
      if result.Error? {
        rep := Reply(req.callId, Nil, result.text);
      } else {
        rep := Reply(req.callId, result.value, "");
      }
      reply := ReplyPacket(id, from, rep);
      Record(HandleCall(from, req, outcome), old(Abs()));
    }

    /** Finds the pending call of a reply, which is one with the reply's id that has not returned; a late reply is
        ignored. */
    method LookUpReply(rep: Reply) returns (found: Option<nat>)
      requires Valid()
      modifies this
      ensures Performs(HandleReply(rep), {}, {})
      ensures found.None? ==> Abs() == old(Abs())
      ensures found.Some? ==>
        && (found.value, rep) in held && found.value < |calls|
        && calls[found.value].id == rep.callId && !calls[found.value].phase.Returned?
    {
      TablesAreOk();
      if rep.callId in pendingCalls {
        found := Some(pendingCalls[rep.callId]);
        held := held + multiset{(found.value, rep)};
      } else {
        found := None;
      }
      Record(HandleReply(rep), old(Abs()));
    }

    /** Offers a looked-up reply to the error or the result channel without blocking. */
    method OfferReply(c: nat, rep: Reply)
      requires Valid() && (c, rep) in held
      modifies this
      ensures Performs(DeliverReply(c, rep), {}, {})
    {
      TablesAreOk();
      held := held - multiset{(c, rep)};
      if rep.error != "" {
        if calls[c].error.None? { calls := calls[c := calls[c].(error := Some(rep.error))]; }
      } else {
        if calls[c].result.None? { calls := calls[c := calls[c].(result := Some(rep.result))]; }
      }
      assert calls == old(calls)[c := Deliver(old(calls)[c], rep)];
      Record(DeliverReply(c, rep), old(Abs()));
    }

    /** The caller's select over its two channels, its context and the timer; None when nothing is ready yet. */
    method AwaitReply(c: nat, callerDone: bool, timerFired: bool) returns (event: Option<NodeEvent>)
      requires Valid() && c < |calls| && calls[c].phase.Waiting?
      modifies this
      ensures event.None? ==> Nothing() && calls[c].result.None? && calls[c].error.None? && !callerDone && !timerFired
      ensures event.Some? ==>
        && Performs(event.value, {}, {})
        && (event.value == CallTakeResult(c) || event.value == CallTakeError(c) ||
            (event.value == CallCancel(c) && callerDone) || (event.value == CallTimeout(c) && timerFired))
    {
      var call := calls[c];
      if {
        case call.result.Some? =>
          event := Some(CallTakeResult(c));
          calls := calls[c := call.(phase := Leaving(GotResult(call.result.value)), result := None)];
        case call.error.Some? =>
          event := Some(CallTakeError(c));
          calls := calls[c := call.(phase := Leaving(GotError(call.error.value)), error := None)];
        case callerDone =>
          event := Some(CallCancel(c));
          calls := calls[c := call.(phase := Leaving(Cancelled))];
        case timerFired =>
          event := Some(CallTimeout(c));
          calls := calls[c := call.(phase := Leaving(TimedOut))];
        case call.result.None? && call.error.None? && !callerDone && !timerFired =>
          return None;
      }
      Record(event.value, old(Abs()));
    }

    /** The deferred removal of the pending entry, as Call returns. */
    method FinishCall(c: nat) returns (ret: Return)
      requires Valid() && c < |calls| && calls[c].phase.Leaving?
      modifies this
      ensures ret == old(calls[c].phase.ret) && Performs(CallReturn(c), {}, {})
    {
      ret := calls[c].phase.ret;
      pendingCalls := pendingCalls - {calls[c].id};
      calls := calls[c := calls[c].(phase := Returned(ret))];
      Record(CallReturn(c), old(Abs()));
    }
  }
}
