/** How remote calls end: what each way of returning was caused by, and that a call whose messages get through returns what
    the handler returned. */
module RemoteOutcomes {
  import opened Basics
  import opened CallIds
  import opened RemoteCall
  import opened NodeRuns
  import opened RemoteRuns

  // ---- every return has its cause ----

  predicate Ended(call: CallRec) {
    call.phase.Leaving? || call.phase.Returned?
  }

  /** `e`, at a node in state `n`, made call `c` end with `ret`. */
  predicate Causes(e: NodeEvent, n: Node, c: nat, ret: Return) {
    match ret
    case SerializeFailed => e.CallUnserializable? && c == |n.calls|
    case SendFailed => e.CallSendFails? && e.call == c && c < |n.calls| && n.calls[c].phase.Sending?
    case Cancelled => e == CallCancel(c) && c < |n.calls| && n.calls[c].phase.Waiting?
    case TimedOut => e == CallTimeout(c) && c < |n.calls| && n.calls[c].phase.Waiting?
    case GotResult(v) => e == CallTakeResult(c) && c < |n.calls| && n.calls[c].phase.Waiting? && n.calls[c].result == Some(v)
    case GotError(t) => e == CallTakeError(c) && c < |n.calls| && n.calls[c].phase.Waiting? && n.calls[c].error == Some(t)
  }

  lemma CallStepCause(n: Node, c: nat, e: NodeEvent, n': Node)
    requires c < |n.calls| && CallStep(n, c, e).Some? && CallStep(n, c, e).value.node == n' && e.call == c
    ensures |n'.calls| == |n.calls|
    ensures Ended(n'.calls[c]) ==>
      (Ended(n.calls[c]) && n.calls[c].phase.ret == n'.calls[c].phase.ret) || Causes(e, n, c, n'.calls[c].phase.ret)
    ensures Ended(n.calls[c]) ==> Ended(n'.calls[c])
  {
  }

  /** A call that has ended did so before, with the same return, or by this event. */
  lemma StepCause(n: Node, e: NodeEvent, n': Node, c: nat)
    requires Steps(n, e, n') && c < |n'.calls| && Ended(n'.calls[c])
    ensures (c < |n.calls| && Ended(n.calls[c]) && n.calls[c].phase.ret == n'.calls[c].phase.ret)
         || Causes(e, n, c, n'.calls[c].phase.ret)
  {
    if OfOneCall(e) {
      CallStepShape(n, e.call, e);
      CallStepCause(n, e.call, e, n');
    }
  }

  /** In every history of a node, whatever the network brings: a call that returned was brought to that by the matching
      event, such as its own context, its timer, the transport's error, or a value taken from its own channel. */
  lemma {:induction false} ReturnHasCause(nodes: seq<Node>, events: seq<NodeEvent>, j: nat, c: nat) returns (i: nat)
    requires IsHistory(nodes, events) && nodes[0].calls == [] && j <= |events| && c < |nodes[j].calls| && Ended(nodes[j].calls[c])
    ensures i < j && Causes(events[i], nodes[i], c, nodes[j].calls[c].phase.ret)
    decreases j
  {
    StepCause(nodes[j - 1], events[j - 1], nodes[j], c);
    if Causes(events[j - 1], nodes[j - 1], c, nodes[j].calls[c].phase.ret) {
      i := j - 1;
    } else {
      i := ReturnHasCause(nodes, events, j - 1, c);
    }
  }

  // ---- a call whose messages get through ----

  lemma {:induction false} ExecConcat(s: Cluster, es: seq<Event>, t: Cluster, more: seq<Event>)
    requires Exec(s, es) == Some(t)
    ensures Exec(s, es + more) == Exec(t, more)
    decreases |es|
  {
    if es == [] {
      assert es + more == more;
    } else {
      assert (es + more)[1..] == es[1..] + more;
      ExecConcat(Apply(s, es[0]).value, es[1..], t, more);
    }
  }

  /** One more event of a run, at one node. */
  lemma Do(s: Cluster, es: seq<Event>, t: Cluster, at: NodeId, e: NodeEvent) returns (es': seq<Event>, t': Cluster)
    requires Exec(s, es) == Some(t) && at in t.nodes && Received(t, at, e) && NodeStep(t.nodes[at], e).Some?
    ensures es' == es + [Event(at, e)] && Exec(s, es') == Some(t')
    ensures var f := NodeStep(t.nodes[at], e).value;
            t' == Cluster(t.nodes[at := f.node], t.network + f.sent, t.answers + f.answers)
  {
    es' := es + [Event(at, e)];
    t' := Apply(t, Event(at, e)).value;
    ExecConcat(s, es, t, [Event(at, e)]);
    assert Exec(t, [Event(at, e)]) == Exec(t', []);
  }

  /** A call is begun and its request sent. */
  lemma CallGoesOut(t: Cluster, at: NodeId, ref: Ref, args: Value) returns (es: seq<Event>, t': Cluster)
    requires at in t.nodes && t.nodes[at].id == at
    ensures Exec(t, es) == Some(t') && at in t'.nodes
    ensures var n, n' := t.nodes[at], t'.nodes[at];
      && t'.nodes == t.nodes[at := n'] && n'.handlers == n.handlers && n'.id == at && |n'.calls| == |n.calls| + 1
      && var call := n'.calls[|n.calls|];
      && call == NewCall(n, ref, args, Waiting) && call.id in n'.pending && n'.pending[call.id] == |n.calls|
      && CallPacket(at, ref.node, Request(call.id, ref.service, args)) in t'.network
  {
    es, t' := Do(t, [], t, at, CallBegin(ref, args));
    es, t' := Do(t, es, t', at, CallSend(|t.nodes[at].calls|));
  }

  /** A waiting call gets a reply that was sent to it, and returns what it says. */
  lemma ReplyComesIn(t: Cluster, at: NodeId, c: nat, rep: Reply, from: NodeId) returns (es: seq<Event>, t': Cluster)
    requires at in t.nodes && c < |t.nodes[at].calls| && ReplyPacket(from, at, rep) in t.network
    requires var call := t.nodes[at].calls[c];
      && call.phase.Waiting? && call.result.None? && call.error.None?
      && rep.callId in t.nodes[at].pending && t.nodes[at].pending[rep.callId] == c
    ensures Exec(t, es) == Some(t') && at in t'.nodes && c < |t'.nodes[at].calls|
    ensures t'.nodes[at].calls[c].phase == Returned(ReadBack(rep))
  {
    var es1, t1 := ReplyIsDelivered(t, at, c, rep, from);
    var es2, t2 := ReplyIsTaken(t1, at, c, rep);
    es, t' := es1 + es2, t2;
    ExecConcat(t, es1, t1, es2);
  }

  lemma ReplyIsDelivered(t: Cluster, at: NodeId, c: nat, rep: Reply, from: NodeId) returns (es: seq<Event>, t': Cluster)
    requires at in t.nodes && c < |t.nodes[at].calls| && ReplyPacket(from, at, rep) in t.network
    requires rep.callId in t.nodes[at].pending && t.nodes[at].pending[rep.callId] == c
    ensures Exec(t, es) == Some(t') && at in t'.nodes && c < |t'.nodes[at].calls|
    ensures t'.nodes[at].calls[c] == Deliver(t.nodes[at].calls[c], rep)
  {
    es, t' := Do(t, [], t, at, HandleReply(rep));
    es, t' := Do(t, es, t', at, DeliverReply(c, rep));
  }

  lemma ReplyIsTaken(t: Cluster, at: NodeId, c: nat, rep: Reply) returns (es: seq<Event>, t': Cluster)
    requires at in t.nodes && c < |t.nodes[at].calls| && t.nodes[at].calls[c].phase.Waiting?
    requires if rep.error != "" then t.nodes[at].calls[c].error == Some(rep.error)
             else t.nodes[at].calls[c].result == Some(rep.result)
    ensures Exec(t, es) == Some(t') && at in t'.nodes && c < |t'.nodes[at].calls|
    ensures t'.nodes[at].calls[c].phase == Returned(ReadBack(rep))
  {
    es, t' := Do(t, [], t, at, if rep.error != "" then CallTakeError(c) else CallTakeResult(c));
    es, t' := Do(t, es, t', at, CallReturn(c));
  }

  /** In every state: a call to a service registered at an existing node can be begun, and if its messages get through it
      returns exactly what the handler returned, unless that was an error with empty text. */
  lemma CallCompletes(t: Cluster, at: NodeId, ref: Ref, args: Value, outcome: Outcome) returns (es: seq<Event>, u: Cluster)
    requires at in t.nodes && t.nodes[at].id == at && ref.node in t.nodes && t.nodes[ref.node].id == ref.node
    requires ref.service in t.nodes[ref.node].handlers && outcome != Error("")
    ensures Exec(t, es) == Some(u) && at in u.nodes
    ensures var c := |t.nodes[at].calls|;
            c < |u.nodes[at].calls| && u.nodes[at].calls[c].phase == Returned(Faithful(outcome))
  {
    var c := |t.nodes[at].calls|;
    var es1, t1 := CallGoesOut(t, at, ref, args);
    var id := t1.nodes[at].calls[c].id;
    var es2, t2 := Do(t1, [], t1, ref.node, HandleCall(at, Request(id, ref.service, args), outcome));
    assert t2.nodes == t1.nodes;
    var rep := EncodeOutcome(id, outcome);
    assert ReplyPacket(ref.node, at, rep) in t2.network;
    var es3, t3 := ReplyComesIn(t2, at, c, rep, ref.node);
    ReadBackIsFaithful(id, outcome);
    es, u := es1 + (es2 + es3), t3;
    ExecConcat(t1, es2, t2, es3);
    ExecConcat(t, es1, t1, es2 + es3);
  }
}
